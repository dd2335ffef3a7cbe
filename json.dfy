/**
 * JSON values as the request-body parser produces them, the open-schema
 * item record, and JavaScript truthiness of a looked-up property.
 */
module Json {

  datatype Option<+T> = None | Some(value: T)

  /**
   * A parsed JSON value. Numbers are kept as the exact decimals written in
   * the body (`real`); the store only asks whether a number is zero once
   * rounded to a double, which `RoundsToZero` decides.
   */
  datatype Json =
    | JNull
    | JBool(b: bool)
    | JNum(n: real)
    | JStr(s: string)
    | JArr(elems: seq<Json>)
    | JObj(fields: map<string, Json>)

  /** An item: a JSON object with any fields at all (an open record). */
  type Item = map<string, Json>

  /** Property access `item.key`: `None` stands for JavaScript's `undefined`. */
  function Get(item: Item, key: string): Option<Json>
  {
    if key in item then Some(item[key]) else None
  }

  function Pow2(k: nat): (r: nat)
    ensures r >= 1
  {
    if k == 0 then 1 else 2 * Pow2(k - 1)
  }

  lemma {:induction false} Pow2Add(a: nat, b: nat)
    ensures Pow2(a + b) == Pow2(a) * Pow2(b)
  {
    if a > 0 {
      Pow2Add(a - 1, b);
    }
  }

  /** 2^1075, written out. */
  const TwoTo1075: nat :=
    404_804_506_614_621_236_704_990_693_437_834_614_099_113_299_528_284_236_713_802_716_054_860_679_135_990_693_783_920_767_402_874_248_990_374_155_728_633_623_822_779_617_474_771_586_953_734_026_799_881_477_019_843_034_848_553_132_722_728_933_815_484_186_432_682_479_535_356_945_490_137_124_014_966_849_385_397_236_206_711_298_319_112_681_620_113_024_717_539_104_666_829_230_461_005_064_372_655_017_292_012_526_615_415_482_186_989_568

  /**
   * Half the smallest positive double, 2^-1075. A decimal no larger than
   * this in magnitude has 0 as its nearest double (at exactly 2^-1075 the
   * tie goes to the even neighbour, 0); anything larger does not.
   */
  function HalfMinSubnormal(): (h: real)
    ensures 0.0 < h < 1.0
  {
    1.0 / TwoTo1075 as real
  }

  /** The written-out constant is the power of two it claims to be. */
  lemma TwoTo1075IsPow2()
    ensures TwoTo1075 == Pow2(1075)
  {
    assert Pow2(1) == 2;
    Pow2Add(1, 1);
    Pow2Add(2, 2);
    Pow2Add(4, 4); assert Pow2(8) == 256;
    Pow2Add(8, 8); assert Pow2(16) == 65536;
    Pow2Add(16, 16); assert Pow2(32) == 4294967296;
    Pow2Add(32, 1); assert Pow2(33) == 8589934592;
    Pow2Add(33, 33); assert Pow2(66) == 73786976294838206464;
    Pow2Add(66, 1); assert Pow2(67) == 147573952589676412928;
    Pow2Add(67, 67); assert Pow2(134) == 21778071482940061661655974875633165533184;
    Pow2Add(134, 134); assert Pow2(268) == 474284397516047136454946754595585670566993857190463750305618264096412179005177856;
    Pow2Add(268, 268); assert Pow2(536) == 224945689727159819140526925384299092943484855915095831655037778630591879033574393515952034305194542857496045531676044756160413302774714984450425759043258192756736;
    Pow2Add(536, 1); assert Pow2(537) == 449891379454319638281053850768598185886969711830191663310075557261183758067148787031904068610389085714992091063352089512320826605549429968900851518086516385513472;
    Pow2Add(537, 537); assert Pow2(1074) == 202402253307310618352495346718917307049556649764142118356901358027430339567995346891960383701437124495187077864316811911389808737385793476867013399940738509921517424276566361364466907742093216341239767678472745068562007483424692698618103355649159556340810056512358769552333414615230502532186327508646006263307707741093494784;
    Pow2Add(1074, 1); assert Pow2(1075) == 404804506614621236704990693437834614099113299528284236713802716054860679135990693783920767402874248990374155728633623822779617474771586953734026799881477019843034848553132722728933815484186432682479535356945490137124014966849385397236206711298319112681620113024717539104666829230461005064372655017292012526615415482186989568;
  }

  /** The number the parser produces for the decimal `n` is 0 (or -0). */
  predicate RoundsToZero(n: real)
  {
    -HalfMinSubnormal() <= n <= HalfMinSubnormal()
  }

  /**
   * JavaScript's ToBoolean on a property value, so `!rm` is `!Truthy(rm)`.
   * `undefined`, `null`, `false`, a number that parses to 0 and `""` are
   * falsy; every other boolean, number and string, and every array and
   * object (even an empty one), is truthy. A parsed JSON value is never NaN.
   */
  predicate Truthy(v: Option<Json>)
    ensures !Truthy(v) <==>
      v == None || v == Some(JNull) || v == Some(JBool(false)) || v == Some(JStr("")) ||
      (v.Some? && v.value.JNum? && RoundsToZero(v.value.n))
    ensures v == Some(JNum(0.0)) ==> !Truthy(v)
  {
    match v
    case None => false
    case Some(JNull) => false
    case Some(JBool(b)) => b
    case Some(JNum(n)) => !RoundsToZero(n)
    case Some(JStr(s)) => s != ""
    case Some(JArr(_)) => true
    case Some(JObj(_)) => true
  }
}
