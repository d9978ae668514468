/** The `Authorization: Bearer <token>` request header of RFC 6750
    section 2.1, as the refresh operation and the logout handler read it. */
module Headers {
  import opened Wrappers
  import opened Text

  /** The scheme prefix the source tests for, case-sensitively. */
  const BearerPrefix := "Bearer "

  /** The credential of an `Authorization` header value: absent when the
      header is missing or does not start with the prefix, otherwise
      everything after the prefix's seven characters. */
  function BearerToken(header: Option<string>): (r: Option<string>)
    ensures r.Some? <==> header.Some? && StartsWith(header.value, BearerPrefix)
    ensures r.Some? ==> header.value == BearerPrefix + r.value
  {
    if header.Some? && StartsWith(header.value, BearerPrefix) then
      var h := header.value;
      assert h == h[..|BearerPrefix|] + h[|BearerPrefix|..];
      Some(h[|BearerPrefix|..])
    else None
  }

  /** Prefixing a credential and reading it back gives the credential. */
  lemma BearerRoundTrip(token: string)
    ensures BearerToken(Some(BearerPrefix + token)) == Some(token)
  {
    var h := BearerPrefix + token;
    assert h[..|BearerPrefix|] == BearerPrefix;
    assert h[|BearerPrefix|..] == token;
  }
}
