/** Values shared by the server and client models: optional values, identifiers,
    the acting principal and the ownership guard applied before every update and delete. */
module Common {

  datatype Option<T> = None | Some(value: T)

  /** The value when present, the fallback otherwise. */
  function GetOr<T>(o: Option<T>, fallback: T): T {
    match o
    case Some(v) => v
    case None => fallback
  }

  /** Document identifiers (MongoDB ObjectIds), compared by plain equality. */
  type Id = nat

  datatype Role = Standard | Admin

  /** The authenticated account making a request (req.user). */
  datatype Principal = Principal(id: Id, role: Role)

  /** The ownership guard: a principal may change or delete a post or comment when it
      authored it or when it is an administrator. */
  predicate CanMutate(who: Principal, author: Id): (b: bool)
    ensures who.role == Admin ==> b
    ensures who.role != Admin ==> (b <==> who.id == author)
  {
    who.id == author || who.role == Admin
  }

}
