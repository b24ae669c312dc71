/** Types shared by the whole model: opaque ids, JavaScript numbers, the
    optional-value wrapper, the store-failure injection and the HTTP status
    codes the handlers answer with. */
module Common {

  /** Document ids. The store hands out ids in increasing order, so the least
      id among a set of documents is the one inserted first: this is how the
      model reads "the first match in natural order" of a `findOne`. */
  type Id = nat

  /** A JavaScript number. The handlers only copy numbers from the request
      into records and back, so no arithmetic is modelled on them. */
  type Number = real

  datatype Option<+T> = None | Some(value: T)

  /** Which store operation of a handler throws, if any. Each handler says
      which of its calls `FindFails` and `WriteFails` stand for. */
  datatype Fault = NoFault | FindFails | WriteFails

  const Ok: int := 200
  const Created: int := 201
  const BadRequest: int := 400
  const Unauthorized: int := 401
  const NotFound: int := 404
  const ServerError: int := 500

  /** A set of ids holding `n` has a least element: either `n` is one, or a
      smaller member of the set is looked at next. */
  lemma {:induction false} LeastExists(s: set<Id>, n: Id)
    requires n in s
    ensures exists m :: m in s && forall j :: j in s ==> m <= j
    decreases n
  {
    if exists j :: j in s && j < n {
      var j :| j in s && j < n;
      LeastExists(s, j);
    } else {
      assert forall j :: j in s ==> n <= j;
    }
  }

  /** The least id of `s`, or `None` when `s` is empty: the document a
      `findOne` returns among those its filter matches. */
  function Least(s: set<Id>): (r: Option<Id>)
    ensures r.None? <==> s == {}
    ensures r.Some? ==> r.value in s && forall j :: j in s ==> r.value <= j
  {
    if s == {} then None
    else
      var n :| n in s;
      LeastExists(s, n);
      var m :| m in s && forall j :: j in s ==> m <= j;
      Some(m)
  }
}
