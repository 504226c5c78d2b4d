/**
 * The cache key: the request's method followed by its URL, followed by the
 * Authorization value when that header is present.
 */
module Keys {
  import opened Wrappers
  import opened Fetch

  /**
   * The key of a request. Cut at the lengths of the method and the URL, it
   * gives back the method, the URL and the credential, in that order.
   */
  function GetKey(req: Request): (k: string)
    ensures |k| == |req.httpMethod| + |req.url| + |CredentialPart(req)|
    ensures k[..|req.httpMethod|] == req.httpMethod
    ensures k[|req.httpMethod|..|req.httpMethod| + |req.url|] == req.url
    ensures k[|req.httpMethod| + |req.url|..] == CredentialPart(req)
  {
    var key := req.httpMethod + req.url;
    match req.authorization
    case Some(credential) => key + credential
    case None => key
  }

  /** What the Authorization header adds to the key: its value, or nothing when absent. */
  function CredentialPart(req: Request): string {
    req.authorization.GetOr("")
  }

  /** Equal prefixes cancel: `p + a == p + b` exactly when `a == b`. */
  lemma PrefixCancels(p: string, a: string, b: string)
    ensures p + a == p + b <==> a == b
  {
    if p + a == p + b {
      assert a == (p + a)[|p|..];
      assert b == (p + b)[|p|..];
    }
  }

  /** Equal suffixes cancel: `a + s == b + s` exactly when `a == b`. */
  lemma SuffixCancels(a: string, b: string, s: string)
    ensures a + s == b + s <==> a == b
  {
    if a + s == b + s {
      assert |a| == |b|;
      assert a == (a + s)[..|a|];
      assert b == (b + s)[..|b|];
    }
  }

  /** Requests that agree on method, URL and Authorization get the same key, whatever else they carry. */
  lemma KeyIgnoresOtherInputs(r1: Request, r2: Request)
    requires r1.httpMethod == r2.httpMethod && r1.url == r2.url && r1.authorization == r2.authorization
    ensures GetKey(r1) == GetKey(r2)
  {
  }

  /** For one method and URL, two requests share a key exactly when their credentials agree. */
  lemma SameTargetKeyIffSameCredential(r1: Request, r2: Request)
    requires r1.httpMethod == r2.httpMethod && r1.url == r2.url
    ensures GetKey(r1) == GetKey(r2) <==> CredentialPart(r1) == CredentialPart(r2)
  {
    PrefixCancels(r1.httpMethod + r1.url, CredentialPart(r1), CredentialPart(r2));
  }

  /** For one method and credential, two requests share a key exactly when their URLs agree. */
  lemma SameCredentialKeyIffSameUrl(r1: Request, r2: Request)
    requires r1.httpMethod == r2.httpMethod && r1.authorization == r2.authorization
    ensures GetKey(r1) == GetKey(r2) <==> r1.url == r2.url
  {
    var m, c := r1.httpMethod, CredentialPart(r1);
    assert m + r1.url + c == m + (r1.url + c);
    assert m + r2.url + c == m + (r2.url + c);
    PrefixCancels(m, r1.url + c, r2.url + c);
    SuffixCancels(r1.url, r2.url, c);
  }

  /** Methods of one length are told apart whatever the URL and credential. */
  lemma KeysSeparateMethods(r1: Request, r2: Request)
    requires |r1.httpMethod| == |r2.httpMethod| && r1.httpMethod != r2.httpMethod
    ensures GetKey(r1) != GetKey(r2)
  {
    var k1, k2 := GetKey(r1), GetKey(r2);
    assert k1[..|r1.httpMethod|] == r1.httpMethod;
    assert k2[..|r2.httpMethod|] == r2.httpMethod;
  }

  /** A present but empty Authorization header keys like an absent one. */
  lemma EmptyCredentialKeysLikeNone(req: Request)
    ensures GetKey(req.(authorization := Some(""))) == GetKey(req.(authorization := None))
  {
  }

  /**
   * The parts are joined without a separator, so a credential can be traded
   * for URL characters: these two requests share a key.
   */
  lemma CredentialCanShiftIntoUrl(m: string, u: string, c: string)
    ensures GetKey(Request(m, u, Some(c), None)) == GetKey(Request(m, u + c, None, None))
  {
  }
}
