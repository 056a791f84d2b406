/** Vocabulary shared by every component. */
module Common {
  datatype Option<+T> = None | Some(value: T)

  /** The error codes of the service layer that the modelled calls can return. */
  datatype Code = Validation | Forbidden | NotFound | Conflict | AlreadyVoted | PollClosed | Internal

  datatype Result<+T> = Ok(value: T) | Err(code: Code)

  /** One call to a remote store: it works, it never reaches the store, or the
      store carries it out and only the reply is lost.  The caller sees an error
      in both of the last two cases. */
  datatype Link = Up | Down | ReplyLost

  predicate Applied(l: Link) {
    l != Down
  }

  type PollId = nat
  type UserId = nat
  type VoterId = string
  type OptionId = string
  type Time = int

  ghost predicate Distinct<T>(s: seq<T>) {
    forall i, j :: 0 <= i < j < |s| ==> s[i] != s[j]
  }

  function Map<A, B>(f: A -> B, s: seq<A>): (r: seq<B>)
    ensures |r| == |s| && forall i :: 0 <= i < |s| ==> r[i] == f(s[i])
  {
    seq(|s|, i requires 0 <= i < |s| => f(s[i]))
  }
}
