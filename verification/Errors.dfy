/** Error classes (pkg/errors/errors.go): an error is transient if a transient wrapper occurs anywhere in its
    chain of wrapped errors. */
module Errors {

  datatype Error =
    | Plain(message: string)
    | Wrapped(message: string, cause: Error)      // fmt.Errorf with %w
    | Transient(cause: Error)                     // NewTransient
    | BadRequest(cause: Error)                    // NewBadRequest

  /** The errors that errors.As visits: the error itself and everything it wraps. */
  function Chain(e: Error): (chain: seq<Error>)
    ensures chain != [] && chain[0] == e
  {
    [e] + if e.Plain? then [] else Chain(e.cause)
  }

  /** `IsTransient` */
  predicate IsTransient(e: Error) {
    e.Transient? || (!e.Plain? && IsTransient(e.cause))
  }

  predicate HasTransient(chain: seq<Error>) {
    exists i :: 0 <= i < |chain| && chain[i].Transient?
  }

  lemma HasTransientCons(e: Error, rest: seq<Error>)
    ensures HasTransient([e] + rest) <==> e.Transient? || HasTransient(rest)
  {
    var chain := [e] + rest;
    if e.Transient? {
      assert chain[0].Transient?;
    }
    if HasTransient(rest) {
      var i :| 0 <= i < |rest| && rest[i].Transient?;
      assert chain[i + 1].Transient?;
    }
  }

  lemma {:induction false} IsTransientInChain(e: Error)
    ensures IsTransient(e) <==> HasTransient(Chain(e))
  {
    if e.Plain? {
      HasTransientCons(e, []);
    } else {
      IsTransientInChain(e.cause);
      HasTransientCons(e, Chain(e.cause));
    }
  }
}
