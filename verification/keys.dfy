/** Retention keys: the memcache key under which a host or a service is
    stored. Memcache keys may not contain spaces, so every space of the
    formatted key is replaced by the token "SPACE". */
module RetentionKeys {
  import opened Text

  const SpaceToken: string := "SPACE"
  const HostPrefix: string := "HOST-"
  const ServicePrefix: string := "SERVICE-"

  /** `normalize_key`: every space becomes `SpaceToken`; every other
      character is kept. */
  function Normalize(s: string): (r: string)
    ensures ' ' !in r
    decreases |s|
  {
    if s == [] then []
    else (if s[0] == ' ' then SpaceToken else [s[0]]) + Normalize(s[1..])
  }

  /** Each space lengthens the key by four characters. */
  lemma {:induction false} NormalizeLength(s: string)
    ensures |Normalize(s)| == |s| + 4 * CountChar(s, ' ')
    decreases |s|
  {
    if s != [] {
      NormalizeLength(s[1..]);
    }
  }

  /** A string without spaces is already a valid key and is kept as is. */
  lemma {:induction false} NormalizeWithoutSpaces(s: string)
    requires ' ' !in s
    ensures Normalize(s) == s
    decreases |s|
  {
    if s != [] {
      NormalizeWithoutSpaces(s[1..]);
      assert [s[0]] + s[1..] == s;
    }
  }

  /** Normalisation works character by character. */
  lemma {:induction false} NormalizeAppend(a: string, b: string)
    ensures Normalize(a + b) == Normalize(a) + Normalize(b)
    decreases |a|
  {
    if a != [] {
      var ab := a + b;
      assert ab != [] && ab[0] == a[0];
      assert ab[1..] == a[1..] + b;
      NormalizeAppend(a[1..], b);
      var head := if a[0] == ' ' then SpaceToken else [a[0]];
      assert Normalize(ab) == head + Normalize(ab[1..]);
      assert Normalize(a) == head + Normalize(a[1..]);
      assert head + (Normalize(a[1..]) + Normalize(b)) == (head + Normalize(a[1..])) + Normalize(b);
    } else {
      assert a + b == b;
    }
  }

  /** Normalisation only ever introduces the letters of `SpaceToken`, so a
      character outside it is present afterwards exactly when it was before. */
  lemma {:induction false} NormalizeKeepsOtherChars(s: string, c: char)
    requires c !in SpaceToken && c != ' '
    ensures c in Normalize(s) <==> c in s
    decreases |s|
  {
    if s != [] {
      NormalizeKeepsOtherChars(s[1..], c);
      var head := if s[0] == ' ' then SpaceToken else [s[0]];
      assert Normalize(s) == head + Normalize(s[1..]);
      assert c in head <==> c == s[0];
      assert c in s <==> c == s[0] || c in s[1..] by {
        assert s == [s[0]] + s[1..];
      }
    }
  }

  /** The token occurs in `s` at position `i`. */
  predicate TokenAt(s: string, i: nat)
  {
    i + |SpaceToken| <= |s| && s[i..i + |SpaceToken|] == SpaceToken
  }

  /** `s` contains the literal "SPACE" somewhere. */
  predicate HasSpaceToken(s: string)
  {
    exists i: nat :: i <= |s| && TokenAt(s, i)
  }

  /** The inverse of `Normalize` on strings without the token: read every
      "SPACE" back as a space. */
  function Denormalize(r: string): string
    decreases |r|
  {
    if r == [] then []
    else if TokenAt(r, 0) then [' '] + Denormalize(r[|SpaceToken|..])
    else [r[0]] + Denormalize(r[1..])
  }

  /** A normalised string that starts with text free of 'S' comes from an
      input that starts with that same text: a space would have produced an
      'S'. */
  lemma {:induction false} NormalizedPrefix(s: string, w: string)
    requires 'S' !in w
    requires |w| <= |Normalize(s)| && Normalize(s)[..|w|] == w
    ensures |w| <= |s| && s[..|w|] == w
    decreases |w|
  {
    if w != [] {
      assert s != [];
      var head := if s[0] == ' ' then SpaceToken else [s[0]];
      assert Normalize(s) == head + Normalize(s[1..]);
      assert Normalize(s)[0] == w[0];
      assert s[0] != ' ';
      assert Normalize(s[1..])[..|w| - 1] == w[1..];
      NormalizedPrefix(s[1..], w[1..]);
    }
  }

  /** A token in the tail of `s` is a token of `s`. */
  lemma TokenInTail(s: string)
    requires s != []
    ensures HasSpaceToken(s[1..]) ==> HasSpaceToken(s)
  {
    if HasSpaceToken(s[1..]) {
      var t := s[1..];
      var i: nat :| i <= |t| && TokenAt(t, i);
      assert s[i + 1..i + 1 + |SpaceToken|] == t[i..i + |SpaceToken|];
      assert TokenAt(s, i + 1);
    }
  }

  /** When `s` starts with a character other than a space, its normalisation
      starts with the token only if `s` itself does. */
  lemma TokenOnlyFromToken(s: string)
    requires s != [] && s[0] != ' '
    ensures TokenAt(Normalize(s), 0) ==> TokenAt(s, 0)
  {
    var t := s[1..];
    var n := Normalize(s);
    var nt := Normalize(t);
    assert n == [s[0]] + nt;
    if TokenAt(n, 0) {
      var k := |SpaceToken|;
      assert n[..k] == SpaceToken;
      assert nt[..k - 1] == n[1..k] == SpaceToken[1..];
      NormalizedPrefix(t, SpaceToken[1..]);
      assert s[..k] == [s[0]] + t[..k - 1];
    }
  }

  /** `Denormalize` undoes `Normalize` on every string that does not itself
      contain the token. */
  lemma {:induction false} NormalizeRoundTrip(s: string)
    requires !HasSpaceToken(s)
    ensures Denormalize(Normalize(s)) == s
    decreases |s|
  {
    if s != [] {
      var t := s[1..];
      TokenInTail(s);
      NormalizeRoundTrip(t);
      var n := Normalize(s);
      if s[0] == ' ' {
        assert n == SpaceToken + Normalize(t);
        assert TokenAt(n, 0);
        assert n[|SpaceToken|..] == Normalize(t);
      } else {
        assert n == [s[0]] + Normalize(t);
        TokenOnlyFromToken(s);
        assert !TokenAt(s, 0);
        assert n[1..] == Normalize(t);
        assert [s[0]] + t == s;
      }
    }
  }

  /** Distinct strings free of the token normalise to distinct strings. */
  lemma NormalizeInjective(a: string, b: string)
    requires !HasSpaceToken(a) && !HasSpaceToken(b)
    ensures Normalize(a) == Normalize(b) <==> a == b
  {
    if Normalize(a) == Normalize(b) {
      NormalizeRoundTrip(a);
      NormalizeRoundTrip(b);
    }
  }

  /** The key of host `name`: `normalize_key("HOST-" + name)`. It holds no
      space, as memcache requires. */
  function HostKey(name: string): (k: string)
    ensures ' ' !in k
  {
    Normalize(HostPrefix + name)
  }

  /** The key of service `desc` on host `host`:
      `normalize_key("SERVICE-" + host + "," + desc)`. It holds no space. */
  function ServiceKey(host: string, desc: string): (k: string)
    ensures ' ' !in k
  {
    Normalize(ServicePrefix + host + "," + desc)
  }

  /** Normalising a host key leaves its tag intact: the key is the tag
      followed by the normalised name. */
  lemma HostKeyShape(name: string)
    ensures HostKey(name) == HostPrefix + Normalize(name)
  {
    NormalizeAppend(HostPrefix, name);
    NormalizeWithoutSpaces(HostPrefix);
  }

  /** Normalising a service key leaves its tag and its comma intact. */
  lemma ServiceKeyShape(host: string, desc: string)
    ensures ServiceKey(host, desc) == ServicePrefix + (Normalize(host) + [','] + Normalize(desc))
  {
    var nh, nd := Normalize(host), Normalize(desc);
    var ph := ServicePrefix + host;
    NormalizeAppend(ph + ",", desc);
    NormalizeAppend(ph, ",");
    NormalizeAppend(ServicePrefix, host);
    NormalizeWithoutSpaces(ServicePrefix);
    NormalizeWithoutSpaces(",");
    calc {
      ServiceKey(host, desc);
      Normalize(ph + "," + desc);
      Normalize(ph + ",") + nd;
      Normalize(ph) + "," + nd;
      ServicePrefix + nh + "," + nd;
    }
    Regroup(ServicePrefix, nh, ",", nd);
  }

  /** No host key is a service key: the tags differ in their first letter. */
  lemma HostAndServiceKeysDiffer(name: string, host: string, desc: string)
    ensures HostKey(name) != ServiceKey(host, desc)
  {
    HostKeyShape(name);
    ServiceKeyShape(host, desc);
    assert HostKey(name)[0] == 'H';
    assert ServiceKey(host, desc)[0] == 'S';
  }

  /** A host name whose key cannot collide: no comma, no "SPACE". */
  predicate ValidHostName(name: string)
  {
    ',' !in name && !HasSpaceToken(name)
  }

  /** A service description whose key cannot collide: no "SPACE". */
  predicate ValidServiceDesc(desc: string)
  {
    !HasSpaceToken(desc)
  }

  /** Host keys identify host names that do not contain the token. */
  lemma HostKeyInjective(a: string, b: string)
    requires !HasSpaceToken(a) && !HasSpaceToken(b)
    ensures HostKey(a) == HostKey(b) <==> a == b
  {
    if HostKey(a) == HostKey(b) {
      HostKeyShape(a);
      HostKeyShape(b);
      assert Normalize(a) == HostKey(a)[|HostPrefix|..];
      assert Normalize(b) == HostKey(b)[|HostPrefix|..];
      NormalizeInjective(a, b);
    }
  }

  /** Past its tag, a service key is the normalised host name, a comma and
      the normalised description. */
  lemma ServiceKeyTail(host: string, desc: string)
    ensures |ServicePrefix| <= |ServiceKey(host, desc)|
    ensures ServiceKey(host, desc)[|ServicePrefix|..] == Normalize(host) + [','] + Normalize(desc)
  {
    ServiceKeyShape(host, desc);
    DropPrefix(ServicePrefix, Normalize(host) + [','] + Normalize(desc));
  }

  /** Concatenation regrouped, stated on variables so that the solver need
      not unfold literal strings. */
  lemma Regroup(a: string, b: string, c: string, d: string)
    ensures a + b + c + d == a + (b + c + d)
  {
  }

  /** Dropping the first part of a concatenation leaves the second. */
  lemma DropPrefix(a: string, b: string)
    ensures (a + b)[|a|..] == b
  {
    assert forall i :: 0 <= i < |b| ==> (a + b)[|a|..][i] == b[i];
  }

  /** Service keys identify (host, description) pairs whose host names hold
      no comma and neither part holds the token. */
  lemma ServiceKeyInjective(h1: string, d1: string, h2: string, d2: string)
    requires ValidHostName(h1) && ValidServiceDesc(d1)
    requires ValidHostName(h2) && ValidServiceDesc(d2)
    ensures ServiceKey(h1, d1) == ServiceKey(h2, d2) <==> h1 == h2 && d1 == d2
  {
    if ServiceKey(h1, d1) == ServiceKey(h2, d2) {
      ServiceKeyTail(h1, d1);
      ServiceKeyTail(h2, d2);
      var n1, m1 := Normalize(h1), Normalize(d1);
      var n2, m2 := Normalize(h2), Normalize(d2);
      assert n1 + [','] + m1 == n2 + [','] + m2;
      NormalizeKeepsOtherChars(h1, ',');
      NormalizeKeepsOtherChars(h2, ',');
      SplitAtFirstSeparator(n1, m1, n2, m2, ',');
      NormalizeInjective(h1, h2);
      NormalizeInjective(d1, d2);
    }
  }

  /** Without the side conditions host keys collide: a space and the
      literal "SPACE" are indistinguishable after normalisation, so
      "a b" and "aSPACEb" share a key. */
  lemma HostKeyCollision(a: string, b: string)
    ensures a + " " + b != a + SpaceToken + b
    ensures HostKey(a + " " + b) == HostKey(a + SpaceToken + b)
  {
    assert |a + " " + b| != |a + SpaceToken + b|;
    HostKeyShape(a + " " + b);
    HostKeyShape(a + SpaceToken + b);
    NormalizeAppend(a + " ", b);
    NormalizeAppend(a, " ");
    NormalizeAppend(a + SpaceToken, b);
    NormalizeAppend(a, SpaceToken);
    NormalizeWithoutSpaces(SpaceToken);
    assert Normalize(" ") == SpaceToken;
  }

  /** Without the side conditions service keys collide: the comma that
      joins host and description may also occur inside either, so
      ("a,b", "c") and ("a", "b,c") share a key. */
  lemma ServiceKeyCollision(a: string, b: string, c: string)
    ensures (a + "," + b, c) != (a, b + "," + c)
    ensures ServiceKey(a + "," + b, c) == ServiceKey(a, b + "," + c)
  {
    assert |c| != |b + "," + c|;
    assert ServicePrefix + (a + "," + b) + "," + c == ServicePrefix + a + "," + (b + "," + c);
  }
}
