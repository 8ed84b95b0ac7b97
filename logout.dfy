/**
 * The logout blacklist: an in-memory set of invalidated tokens, held for the life of the
 * process. Logging out adds the token; a token is refused once it is in the set.
 */
module Logout {
  /** The set after invalidating `token`. */
  function Invalidated(tokens: set<string>, token: string): (r: set<string>)
    ensures token in r
    ensures forall t :: t != token ==> (t in r <==> t in tokens)
  {
    tokens + {token}
  }

  /** Invalidating a token twice is the same as invalidating it once. */
  lemma InvalidateIdempotent(tokens: set<string>, token: string)
    ensures Invalidated(Invalidated(tokens, token), token) == Invalidated(tokens, token)
  {
  }

  /** Invalidations commute: the blacklist does not depend on the order of logouts. */
  lemma InvalidateCommutes(tokens: set<string>, a: string, b: string)
    ensures Invalidated(Invalidated(tokens, a), b) == Invalidated(Invalidated(tokens, b), a)
  {
  }

  class LogoutService {
    var invalidatedTokens: set<string>

    /** A fresh service has invalidated nothing. */
    constructor ()
      ensures invalidatedTokens == {}
      ensures forall t :: !IsTokenInvalidated(t)
    {
      invalidatedTokens := {};
    }

    /** `invalidateToken`: adds the token to the set. */
    method InvalidateToken(token: string)
      modifies this
      ensures invalidatedTokens == Invalidated(old(invalidatedTokens), token)
      ensures IsTokenInvalidated(token)
      ensures forall t :: t != token ==> IsTokenInvalidated(t) == old(IsTokenInvalidated(t))
    {
      invalidatedTokens := invalidatedTokens + {token};
    }

    /** `isTokenInvalidated`: membership in the set; it reads the state and changes nothing. */
    predicate IsTokenInvalidated(token: string)
      reads this
    {
      token in invalidatedTokens
    }
  }
}
