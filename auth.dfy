/**
 * The bearer-token gate the task service puts in front of every unary call.
 * `md` stands for what the call's incoming metadata holds under the
 * `authorization` key: `None` when the call has no incoming metadata at all,
 * otherwise the (possibly empty) list of values for that key.
 */
module Auth {
  import opened Options
  import opened Codes
  import opened Text

  /** What the gate answers: a rejection, or the handler's own reply, untouched. */
  datatype Reply<R> = Rejected(code: Code) | Handled(response: R)

  /** The one credential the gate accepts for `expectedToken`. */
  function Credential(expectedToken: string): string {
    "Bearer " + expectedToken
  }

  /**
   * The interceptor. Only the first `authorization` value is looked at; a
   * blank one counts as missing, and any other value must equal the
   * credential exactly, without trimming.
   */
  function Intercept<C, Q, R>(md: Option<seq<string>>, expectedToken: string, ctx: C, req: Q, handler: (C, Q) -> R): (r: Reply<R>)
    ensures r.Handled? <==> md.Some? && |md.value| > 0 && md.value[0] == Credential(expectedToken)
    ensures r.Handled? ==> r.response == handler(ctx, req)
    ensures r.Rejected? ==> (r.code == Unauthenticated <==> md.None? || |md.value| == 0 || IsBlank(md.value[0]))
    ensures r.Rejected? ==> r.code == Unauthenticated || r.code == PermissionDenied
  {
    CredentialNotBlank(expectedToken);
    match md
    case None => Rejected(Unauthenticated)
    case Some(vals) =>
      if |vals| == 0 || TrimSpace(vals[0]) == "" then Rejected(Unauthenticated)
      else if vals[0] != Credential(expectedToken) then Rejected(PermissionDenied)
      else Handled(handler(ctx, req))
  }

  /** The credential is never blank, so the blank check cannot turn it away. */
  lemma CredentialNotBlank(expectedToken: string)
    ensures !IsBlank(Credential(expectedToken))
  {
    assert Credential(expectedToken)[0] == 'B';
  }

  /** Values after the first never change the answer. */
  lemma OnlyFirstValueCounts<C, Q, R>(first: string, rest1: seq<string>, rest2: seq<string>,
                                      expectedToken: string, ctx: C, req: Q, handler: (C, Q) -> R)
    ensures Intercept(Some([first] + rest1), expectedToken, ctx, req, handler)
         == Intercept(Some([first] + rest2), expectedToken, ctx, req, handler)
  {
  }

  /** A blank first value is Unauthenticated, not PermissionDenied, though it differs from the credential. */
  lemma BlankIsUnauthenticated<C, Q, R>(expectedToken: string, ctx: C, req: Q, handler: (C, Q) -> R)
    ensures Intercept(Some(["   "]), expectedToken, ctx, req, handler) == Rejected(Unauthenticated)
    ensures Intercept(Some([""]), expectedToken, ctx, req, handler) == Rejected(Unauthenticated)
    ensures Intercept(Some([]), expectedToken, ctx, req, handler) == Rejected(Unauthenticated)
    ensures Intercept(None, expectedToken, ctx, req, handler) == Rejected(Unauthenticated)
  {
    assert IsBlank("   ");
  }

  /** The exact credential reaches the handler, whatever values follow it. */
  lemma CredentialAccepted<C, Q, R>(expectedToken: string, rest: seq<string>, ctx: C, req: Q, handler: (C, Q) -> R)
    ensures Intercept(Some([Credential(expectedToken)] + rest), expectedToken, ctx, req, handler) == Handled(handler(ctx, req))
  {
  }

  /** The service's own checks use the token "devtoken"; a wrong token is refused with PermissionDenied. */
  lemma WrongTokenDenied<C, Q, R>(ctx: C, req: Q, handler: (C, Q) -> R)
    ensures Intercept(Some(["Bearer something"]), "devtoken", ctx, req, handler) == Rejected(PermissionDenied)
  {
    var v := "Bearer something";
    assert !IsSpace(v[0]);
    assert v[7] != Credential("devtoken")[7];
  }

  /** The comparison is not trimmed: a padded credential is refused. */
  lemma PaddedCredentialDenied<C, Q, R>(ctx: C, req: Q, handler: (C, Q) -> R)
    ensures Intercept(Some([" Bearer devtoken"]), "devtoken", ctx, req, handler) == Rejected(PermissionDenied)
  {
    var v := " Bearer devtoken";
    assert !IsSpace(v[1]);
    assert v[0] != Credential("devtoken")[0];
  }
}
