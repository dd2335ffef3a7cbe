/** The outcomes of the mutating handlers, with their status codes and JSON bodies. */
module Responses {
  import opened Json

  datatype Response =
    | Created(item: Item)   // 201 { message, item }
    | BadRequest            // 400, `rm` missing or falsy
    | Deleted               // 200 { message }
    | NotFound              // 404, nothing matched the delete

  function Status(r: Response): (code: nat)
    ensures r.Created? <==> code == 201
    ensures r.Deleted? <==> code == 200
    ensures r.BadRequest? <==> code == 400
    ensures r.NotFound? <==> code == 404
    ensures (r.BadRequest? || r.NotFound?) <==> 400 <= code < 500
  {
    match r
    case Created(_) => 201
    case BadRequest => 400
    case Deleted => 200
    case NotFound => 404
  }

  /**
   * The JSON the handler sends: an error object on failure, a message on
   * success, and on creation also the created item itself.
   */
  function Body(r: Response): (j: Json)
    ensures j.JObj?
    ensures r.Created? ==> j.fields.Keys == {"message", "item"} && j.fields["item"] == JObj(r.item)
    ensures !r.Created? ==> |j.fields.Keys| == 1
    ensures r.Deleted? ==> j.fields.Keys == {"message"}
    ensures (r.BadRequest? || r.NotFound?) ==> j.fields.Keys == {"error"}
    ensures "error" in j.fields <==> 400 <= Status(r)
  {
    match r
    case Created(item) => JObj(map["message" := JStr("Item criado"), "item" := JObj(item)])
    case BadRequest => JObj(map["error" := JStr("O campo 'rm' é obrigatório")])
    case Deleted => JObj(map["message" := JStr("Item excluído com sucesso")])
    case NotFound => JObj(map["error" := JStr("Item não encontrado")])
  }
}
