/** A concrete, non-cryptographic `Jwt` that meets `Auth.Lawful`, so that the
    hypothesis the authentication lemmas rest on can be met. A token spells
    out its payload, secret, issue time and lifetime in a prefix-free code
    over the characters `a . _ p n`. */
module JwtWitness {
  import opened Wrappers
  import opened Auth

  /** `n` as `n` letters `a` closed by a dot. */
  function Unary(n: nat): (r: string)
    ensures |r| > 0 && r[|r| - 1] == '.' && (forall i :: 0 <= i < |r| - 1 ==> r[i] == 'a')
  {
    if n == 0 then "." else "a" + Unary(n - 1)
  }

  /** Each character's code in unary, the whole closed by `_`. */
  function EncodeString(s: string): (r: string)
    ensures |r| > 0 && (r[0] == '_' <==> s == [])
  {
    if s == [] then "_" else Unary(s[0] as int) + EncodeString(s[1..])
  }

  /** A sign letter `p` or `n`, then the magnitude in unary. */
  function EncodeInt(i: int): string {
    [if i >= 0 then 'p' else 'n'] + Unary(if i >= 0 then i else -i)
  }

  function Encode(c: Claim, secret: string, iat: int, ttl: int): string {
    EncodeString(c.username) + (EncodeString(c.email) + (EncodeString(c.id) +
      (EncodeString(secret) + (EncodeInt(iat) + EncodeInt(ttl)))))
  }

  /** Equal strings with equal first characters agree after them. */
  lemma DropHead(c: char, x: string, y: string)
    requires [c] + x == [c] + y
    ensures x == y
  {
    assert x == ([c] + x)[1..];
  }

  lemma {:induction false} UnaryPrefixFree(m: nat, n: nat, x: string, y: string)
    requires Unary(m) + x == Unary(n) + y
    ensures m == n && x == y
  {
    assert (Unary(m) + x)[0] == Unary(m)[0] && (Unary(n) + y)[0] == Unary(n)[0];
    assert Unary(m)[0] == (if m == 0 then '.' else 'a');
    assert Unary(n)[0] == (if n == 0 then '.' else 'a');
    assert (m == 0) == (n == 0);
    if m == 0 {
      assert Unary(m) == ['.'] == Unary(n);
      DropHead('.', x, y);
    } else {
      assert Unary(m) + x == "a" + (Unary(m - 1) + x);
      assert Unary(n) + y == "a" + (Unary(n - 1) + y);
      DropHead('a', Unary(m - 1) + x, Unary(n - 1) + y);
      UnaryPrefixFree(m - 1, n - 1, x, y);
    }
  }

  lemma {:induction false} EncodeStringPrefixFree(s: string, t: string, x: string, y: string)
    requires EncodeString(s) + x == EncodeString(t) + y
    ensures s == t && x == y
  {
    assert (EncodeString(s) + x)[0] == EncodeString(s)[0];
    assert (EncodeString(t) + y)[0] == EncodeString(t)[0];
    if s == [] && t == [] {
      assert x == (EncodeString(s) + x)[1..];
    } else if s != [] && t != [] {
      assert EncodeString(s) + x == Unary(s[0] as int) + (EncodeString(s[1..]) + x);
      assert EncodeString(t) + y == Unary(t[0] as int) + (EncodeString(t[1..]) + y);
      UnaryPrefixFree(s[0] as int, t[0] as int, EncodeString(s[1..]) + x, EncodeString(t[1..]) + y);
      EncodeStringPrefixFree(s[1..], t[1..], x, y);
      assert s == [s[0]] + s[1..] && t == [t[0]] + t[1..];
    }
  }

  lemma {:induction false} EncodeIntPrefixFree(i: int, j: int, x: string, y: string)
    requires EncodeInt(i) + x == EncodeInt(j) + y
    ensures i == j && x == y
  {
    var si, sj := if i >= 0 then 'p' else 'n', if j >= 0 then 'p' else 'n';
    var mi, mj := if i >= 0 then i else -i, if j >= 0 then j else -j;
    assert EncodeInt(i) + x == [si] + (Unary(mi) + x);
    assert EncodeInt(j) + y == [sj] + (Unary(mj) + y);
    assert si == (EncodeInt(i) + x)[0] == (EncodeInt(j) + y)[0] == sj;
    DropHead(si, Unary(mi) + x, Unary(mj) + y);
    UnaryPrefixFree(mi, mj, x, y);
  }

  /** Distinct payloads, secrets, issue times or lifetimes give distinct tokens. */
  lemma {:induction false} EncodeInjective(c: Claim, s: string, iat: int, ttl: int, c': Claim, s': string, iat': int, ttl': int)
    requires Encode(c, s, iat, ttl) == Encode(c', s', iat', ttl')
    ensures c == c' && s == s' && iat == iat' && ttl == ttl'
  {
    var tail := EncodeString(c.email) + (EncodeString(c.id) + (EncodeString(s) + (EncodeInt(iat) + EncodeInt(ttl))));
    var tail' := EncodeString(c'.email) + (EncodeString(c'.id) + (EncodeString(s') + (EncodeInt(iat') + EncodeInt(ttl'))));
    EncodeStringPrefixFree(c.username, c'.username, tail, tail');
    var tail2 := EncodeString(c.id) + (EncodeString(s) + (EncodeInt(iat) + EncodeInt(ttl)));
    var tail2' := EncodeString(c'.id) + (EncodeString(s') + (EncodeInt(iat') + EncodeInt(ttl')));
    EncodeStringPrefixFree(c.email, c'.email, tail2, tail2');
    var tail3 := EncodeString(s) + (EncodeInt(iat) + EncodeInt(ttl));
    var tail3' := EncodeString(s') + (EncodeInt(iat') + EncodeInt(ttl'));
    EncodeStringPrefixFree(c.id, c'.id, tail3, tail3');
    EncodeStringPrefixFree(s, s', EncodeInt(iat) + EncodeInt(ttl), EncodeInt(iat') + EncodeInt(ttl'));
    EncodeIntPrefixFree(iat, iat', EncodeInt(ttl), EncodeInt(ttl'));
    assert EncodeInt(ttl) + [] == EncodeInt(ttl') + [];
    EncodeIntPrefixFree(ttl, ttl', [], []);
  }

  predicate AllTokenChars(t: string) {
    forall i :: 0 <= i < |t| ==> IsTokenChar(t[i])
  }

  lemma {:induction false} ConcatTokenChars(a: string, b: string)
    requires AllTokenChars(a) && AllTokenChars(b)
    ensures AllTokenChars(a + b)
  {
    forall i | 0 <= i < |a + b| ensures IsTokenChar((a + b)[i]) {
      if i >= |a| {
        assert (a + b)[i] == b[i - |a|];
      }
    }
  }

  lemma {:induction false} EncodeStringTokenChars(s: string)
    ensures AllTokenChars(EncodeString(s))
  {
    if s != [] {
      EncodeStringTokenChars(s[1..]);
      ConcatTokenChars(Unary(s[0] as int), EncodeString(s[1..]));
    }
  }

  lemma {:induction false} EncodeIntTokenChars(i: int)
    ensures AllTokenChars(EncodeInt(i))
  {
    var n := if i >= 0 then i else -i;
    ConcatTokenChars(if i >= 0 then "p" else "n", Unary(n));
  }

  lemma {:induction false} EncodeIsCompact(c: Claim, s: string, iat: int, ttl: int)
    ensures IsCompact(Encode(c, s, iat, ttl))
  {
    EncodeStringTokenChars(c.username);
    EncodeStringTokenChars(c.email);
    EncodeStringTokenChars(c.id);
    EncodeStringTokenChars(s);
    EncodeIntTokenChars(iat);
    EncodeIntTokenChars(ttl);
    ConcatTokenChars(EncodeInt(iat), EncodeInt(ttl));
    ConcatTokenChars(EncodeString(s), EncodeInt(iat) + EncodeInt(ttl));
    ConcatTokenChars(EncodeString(c.id), EncodeString(s) + (EncodeInt(iat) + EncodeInt(ttl)));
    ConcatTokenChars(EncodeString(c.email), EncodeString(c.id) + (EncodeString(s) + (EncodeInt(iat) + EncodeInt(ttl))));
    ConcatTokenChars(EncodeString(c.username),
                     EncodeString(c.email) + (EncodeString(c.id) + (EncodeString(s) + (EncodeInt(iat) + EncodeInt(ttl)))));
  }

  /** `verify` for `Encode`: the payload of a token that spells out this
      secret and has not expired, nothing otherwise. */
  ghost function VerifyEncoded(token: string, secret: string, now: int): Option<Claim> {
    if exists c, iat, ttl :: token == Encode(c, secret, iat, ttl) then
      var c, iat, ttl :| token == Encode(c, secret, iat, ttl);
      if now < iat + ttl then Some(c) else None
    else None
  }

  ghost function Witness(): Jwt<Claim> {
    Jwt((c, s, iat, ttl) => Encode(c, s, iat, ttl), (t, s, now) => VerifyEncoded(t, s, now))
  }

  /** Only one payload, issue time and lifetime spell out a given token. */
  lemma UniqueDecoding(t: string, s: string, c: Claim, iat: int, ttl: int)
    requires t == Encode(c, s, iat, ttl)
    ensures forall c', iat', ttl' :: t == Encode(c', s, iat', ttl') ==> c' == c && iat' == iat && ttl' == ttl
  {
    forall c', iat', ttl' | t == Encode(c', s, iat', ttl') ensures c' == c && iat' == iat && ttl' == ttl {
      EncodeInjective(c, s, iat, ttl, c', s, iat', ttl');
    }
  }

  lemma WitnessRoundTrip(c: Claim, s: string, iat: int, ttl: int, now: int)
    ensures VerifyEncoded(Encode(c, s, iat, ttl), s, now) == if now < iat + ttl then Some(c) else None
  {
    UniqueDecoding(Encode(c, s, iat, ttl), s, c, iat, ttl);
  }

  lemma WitnessOnlyIssued(t: string, s: string, now: int) returns (iat: int, ttl: int)
    requires VerifyEncoded(t, s, now).Some?
    ensures t == Encode(VerifyEncoded(t, s, now).value, s, iat, ttl) && now < iat + ttl
  {
    var c :| exists iat', ttl' :: t == Encode(c, s, iat', ttl');
    iat, ttl :| t == Encode(c, s, iat, ttl);
    UniqueDecoding(t, s, c, iat, ttl);
  }

  /** The JWT laws can be met. */
  lemma LawfulIsConsistent()
    ensures exists jwt: Jwt<Claim> :: Lawful(jwt)
  {
    var jwt := Witness();
    forall c, s, iat, ttl, now
      ensures jwt.verify(jwt.sign(c, s, iat, ttl), s, now) == if now < iat + ttl then Some(c) else None
    {
      WitnessRoundTrip(c, s, iat, ttl, now);
    }
    forall t, s, now | jwt.verify(t, s, now).Some?
      ensures Issued(jwt, t, jwt.verify(t, s, now).value, s, now)
    {
      var iat, ttl := WitnessOnlyIssued(t, s, now);
      assert jwt.sign(jwt.verify(t, s, now).value, s, iat, ttl) == t;
    }
    forall c, s, iat, ttl ensures IsCompact(jwt.sign(c, s, iat, ttl)) {
      EncodeIsCompact(c, s, iat, ttl);
    }
    assert Lawful(jwt);
  }
}
