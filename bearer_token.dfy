/** How the authentication filter reads the bearer token out of the
    Authorization header. */
module BearerToken {
  import opened Wrappers
  import opened Text

  const BearerPrefix := "Bearer "

  /** The header's token: present only when the header starts with exactly
      "Bearer " (case and trailing space included); it is the header with every
      "Bearer " removed, then trimmed. */
  function RecoverToken(header: Option<string>): (r: Option<string>)
    ensures r.Some? <==> header.Some? && StartsWith(header.value, BearerPrefix)
    ensures r.Some? ==> |r.value| <= |header.value| - |BearerPrefix|
  {
    if header.Some? && StartsWith(header.value, BearerPrefix) then
      var h := header.value;
      assert h == BearerPrefix + h[|BearerPrefix|..];
      RemoveAllLeading(BearerPrefix, h[|BearerPrefix|..]);
      Some(Trim(RemoveAll(h, BearerPrefix)))
    else None
  }

  /** A token that does not itself hold "Bearer " and does not start or end
      with a space or control character is read back from "Bearer <token>". */
  lemma BearerRoundTrip(token: string)
    requires token == [] || (token[0] > ' ' && token[|token| - 1] > ' ')
    requires !Contains(token, BearerPrefix)
    ensures RecoverToken(Some(BearerPrefix + token)) == Some(token)
  {
    var h := BearerPrefix + token;
    assert h[..|BearerPrefix|] == BearerPrefix;
    assert h[|BearerPrefix|..] == token;
    RemoveAllLeading(BearerPrefix, token);
    RemoveAllAbsent(token, BearerPrefix);
    TrimOfTrimmed(token);
  }

  /** The scheme name is compared case-sensitively: a header that starts with
      "bearer " carries no token, whatever follows. */
  lemma LowerCaseSchemeIgnored(rest: string)
    ensures RecoverToken(Some("bearer " + rest)) == None
  {
    var h := "bearer " + rest;
    assert h[..|BearerPrefix|][0] != BearerPrefix[0];
  }

  /** A "Bearer " inside the token is removed too: after the scheme, a run
      without a 'B' followed by "Bearer " and the rest loses that inner
      "Bearer " (so "Bearer abcBearer def" gives "abcdef"). */
  lemma InnerBearerRemoved(p: string, s: string)
    requires forall i | 0 <= i < |p| :: p[i] != 'B'
    ensures RecoverToken(Some(BearerPrefix + p + BearerPrefix + s))
         == Some(Trim(p + RemoveAll(s, BearerPrefix)))
  {
    var h := BearerPrefix + p + BearerPrefix + s;
    assert h == BearerPrefix + (p + (BearerPrefix + s));
    assert h[..|BearerPrefix|] == BearerPrefix;
    RemoveAllLeading(BearerPrefix, p + (BearerPrefix + s));
    KeepsUnmarked(p, BearerPrefix + s);
    RemoveAllLeading(BearerPrefix, s);
  }

  /** The removal is a single pass: what it joins together is not scanned
      again. "Be" + "Bearer " + "arer " joins into a new "Bearer ", so
      "Bearer BeBearer arer x" gives "Bearer x", a token that still starts
      with "Bearer ". */
  lemma SinglePassLeavesBearer(v: string)
    requires v != [] && v[|v| - 1] > ' ' && !Contains(v, BearerPrefix)
    ensures RecoverToken(Some(BearerPrefix + "Be" + BearerPrefix + "arer " + v)) == Some(BearerPrefix + v)
  {
    var tail := "arer " + v;
    var inner := "Be" + (BearerPrefix + tail);
    var h := BearerPrefix + "Be" + BearerPrefix + "arer " + v;
    assert h == BearerPrefix + inner;
    assert StartsWith(h, BearerPrefix) by {
      assert h[..|BearerPrefix|] == BearerPrefix;
    }
    SinglePassJoins(inner, tail, v);
    var r := BearerPrefix + v;
    assert r[0] > ' ' && r[|r| - 1] == v[|v| - 1];
    TrimOfTrimmed(r);
  }

  /** The removal drops the two "Bearer "s it finds and joins "Be" to "arer ". */
  lemma SinglePassJoins(inner: string, tail: string, v: string)
    requires !Contains(v, BearerPrefix)
    requires tail == "arer " + v && inner == "Be" + (BearerPrefix + tail)
    ensures RemoveAll(BearerPrefix + inner, BearerPrefix) == BearerPrefix + v
  {
    RemoveAllLeading(BearerPrefix, inner);
    KeepsUnmarkedPrefix("Be", BearerPrefix + tail);
    RemoveAllLeading(BearerPrefix, tail);
    KeepsUnmarked("arer ", v);
    RemoveAllAbsent(v, BearerPrefix);
    assert "Be" + ("arer " + v) == BearerPrefix + v;
  }

  /** "Be" cannot start a "Bearer " when what follows it is "Bearer ...". */
  lemma KeepsUnmarkedPrefix(p: string, s: string)
    requires p == "Be" && StartsWith(s, BearerPrefix)
    ensures RemoveAll(p + s, BearerPrefix) == p + RemoveAll(s, BearerPrefix)
  {
    var h := p + s;
    assert h[..|BearerPrefix|][2] != BearerPrefix[2];
    assert h[1..] == "e" + s;
    assert h[1..][..|BearerPrefix|][0] != BearerPrefix[0];
    assert h[1..][1..] == s;
    assert [h[0]] + ([h[1]] + RemoveAll(s, BearerPrefix)) == p + RemoveAll(s, BearerPrefix);
  }

  /** Characters that cannot start a "Bearer " are kept as they are. */
  lemma {:induction false} KeepsUnmarked(p: string, s: string)
    requires forall i | 0 <= i < |p| :: p[i] != 'B'
    ensures RemoveAll(p + s, BearerPrefix) == p + RemoveAll(s, BearerPrefix)
    decreases |p|
  {
    if p == [] {
      assert p + s == s;
    } else {
      KeepsUnmarked(p[1..], s);
      assert (p + s)[1..] == p[1..] + s;
      if |p + s| >= |BearerPrefix| {
        assert (p + s)[..|BearerPrefix|][0] != BearerPrefix[0];
        assert RemoveAll(p + s, BearerPrefix) == [p[0]] + RemoveAll(p[1..] + s, BearerPrefix);
        assert [p[0]] + (p[1..] + RemoveAll(s, BearerPrefix)) == p + RemoveAll(s, BearerPrefix);
      } else {
        assert RemoveAll(s, BearerPrefix) == s;
      }
    }
  }
}
