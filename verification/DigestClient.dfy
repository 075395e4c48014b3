/**
 The authentication seen from a client: which requests are accepted, in the terms of section
 3.4 of RFC 7616, and which server nonces may be used.
 */
module DigestClient {
  import opened DigestAuth
  import opened DigestHeader
  import opened ReplayWindow
  import opened Words
  import opened Wrappers

  // ---------- counts as text ----------

  const DIGITS := "0123456789abcdef"

  /** The n hexadecimal digits of a count. */
  function HexText(count: nat, n: nat): string {
    if n == 0 then "" else HexText(count / 16, n - 1) + [DIGITS[count % 16]]
  }

  lemma DigitReads(d: nat)
    requires d < 16
    ensures HexDigit(DIGITS[d]) && DigitValue(DIGITS[d]) == d
  {
  }

  lemma DigitWritten(c: char)
    requires HexDigit(c)
    ensures DigitValue(c) < 16 && DIGITS[DigitValue(c)] == c
  {
  }

  lemma {:induction false} TextReads(count: nat, n: nat)
    requires count < Pow16(n)
    ensures Hex(HexText(count, n), n) && NcValue(HexText(count, n)) == count
  {
    if n > 0 {
      TextReads(count / 16, n - 1);
      DigitReads(count % 16);
      var s := HexText(count, n);
      assert s[..|s| - 1] == HexText(count / 16, n - 1);
    }
  }

  lemma {:induction false} TextWritten(s: string)
    requires Hex(s, |s|)
    ensures HexText(NcValue(s), |s|) == s
  {
    if s != [] {
      var front := s[..|s| - 1];
      TextWritten(front);
      DigitWritten(s[|s| - 1]);
      assert NcValue(s) / 16 == NcValue(front) && NcValue(s) % 16 == DigitValue(s[|s| - 1]);
      assert front + [s[|s| - 1]] == s;
    }
  }

  // ---------- answers ----------

  /** KD(secret, data) of the RFC. */
  function Keyed(md5: string -> string, secret: string, data: string): string { md5(secret + ":" + data) }

  /** The response to a challenge with quality of protection "auth"; the verifier is H(A1). */
  function Response(md5: string -> string, verifier: string, nonce: string, nc: string, cnonce: string, verb: string, uri: string): string {
    Keyed(md5, verifier, nonce + ":" + nc + ":" + cnonce + ":" + "auth" + ":" + md5(verb + ":" + uri))
  }

  /** These fields answer this nonce, as its use number `count`, with knowledge of the verifier. */
  ghost predicate Answers(realm: string, verifier: string, md5: string -> string, q: Request, fields: map<string, string>, nonce: string, count: u32) {
    && verifier != "" && 0 < count
    && Lookup(fields, "username") == "admin" && Lookup(fields, "realm") == realm && Lookup(fields, "uri") == q.uri
    && Lookup(fields, "qop") == "auth" && Lookup(fields, "algorithm") in {"", "MD5"}
    && Lookup(fields, "nonce") == nonce && Lookup(fields, "nc") == HexText(count, 8)
    && 1 <= |Lookup(fields, "cnonce")| <= 64 && Hex(Lookup(fields, "response"), 32)
    && Lookup(fields, "response") == Response(md5, verifier, nonce, HexText(count, 8), Lookup(fields, "cnonce"), q.verb, q.uri)
  }

  lemma ResponseExpected(a: Auth, q: Request, md5: string -> string)
    requires Parse(q.header).Some?
    ensures Expected(a, q, md5) == Response(md5, a.verifier, Field(q, "nonce"), Field(q, "nc"), Field(q, "cnonce"), q.verb, q.uri)
  {
    var nonce, nc, cnonce, resource := Field(q, "nonce"), Field(q, "nc"), Field(q, "cnonce"), md5(q.verb + ":" + q.uri);
    assert a.verifier + ":" + nonce + ":" + nc + ":" + cnonce + ":auth:" + resource ==
           a.verifier + ":" + (nonce + ":" + nc + ":" + cnonce + ":" + "auth" + ":" + resource);
  }

  /** The use a request makes of a nonce on hand. */
  ghost predicate Makes(a: Auth, md5: string -> string, q: Request, fields: map<string, string>, n: Nonce, count: u32) {
    n in a.nonces && Answers(a.realm, a.verifier, md5, q, fields, n.value, count) && n.issued <= q.now
  }

  lemma FindIs(nonces: seq<Nonce>, n: Nonce)
    requires DistinctValues(nonces) && n in nonces
    ensures Find(nonces, n.value) < |nonces| && nonces[Find(nonces, n.value)] == n
  {
    FindReaches(nonces, n.value);
    FindFirst(nonces, n.value);
    var i :| 0 <= i < |nonces| && nonces[i] == n;
    var j := Find(nonces, n.value);
    assert nonces[j].value == nonces[i].value;
  }

  lemma {:induction false} FindReaches(nonces: seq<Nonce>, value: string)
    requires exists n :: n in nonces && n.value == value
    ensures Find(nonces, value) < |nonces|
  {
    if nonces[0].value != value {
      var n :| n in nonces && n.value == value;
      assert n in nonces[1..];
      FindReaches(nonces[1..], value);
    }
  }

  lemma MadeIsAddressed(a: Auth, md5: string -> string, q: Request, fields: map<string, string>, n: Nonce, count: u32)
    requires DistinctValues(a.nonces) && Parse(q.header) == Some(fields) && Makes(a, md5, q, fields, n, count)
    ensures Addressed(a, q) && Target(a, q) == n && Count(q) == count && Expected(a, q, md5) == Field(q, "response")
  {
    assert Pow16(8) == 0x1_0000_0000;
    TextReads(count, 8);
    FindIs(a.nonces, n);
    ResponseExpected(a, q, md5);
  }

  lemma AddressedIsMade(a: Auth, md5: string -> string, q: Request, fields: map<string, string>)
    requires Parse(q.header) == Some(fields) && Addressed(a, q) && Count(q) > 0 && Expected(a, q, md5) == Field(q, "response")
    ensures Makes(a, md5, q, fields, Target(a, q), Count(q))
  {
    FindFirst(a.nonces, Field(q, "nonce"));
    TextWritten(Field(q, "nc"));
    ResponseExpected(a, q, md5);
  }

  /**
   After any run from power-on in which no nonce is issued twice, a request is accepted if and
   only if its header spells fields that answer, with knowledge of the verifier, a nonce on
   hand that was issued less than five minutes ago, as a use not accepted before and with no
   count of 32 more accepted; it is stale if only the age is wrong.
   */
  lemma AcceptedExactly(ops: seq<Op>, md5: string -> string, q: Request)
    requires DistinctNonces(START, ops, md5, {})
    ensures var a, uses := After(START, ops, md5), Uses(START, ops, md5);
      && (Judge(a, q, md5) == Accepted <==>
            exists fields, n, count :: Writes(q.header, fields) && Makes(a, md5, q, fields, n, count)
              && Fresh(uses, n.value, count) && q.now - n.issued < 300000)
      && (Judge(a, q, md5) == Stale <==>
            exists fields, n, count :: Writes(q.header, fields) && Makes(a, md5, q, fields, n, count)
              && Fresh(uses, n.value, count) && 300000 <= q.now - n.issued)
  {
    var a, uses := After(START, ops, md5), Uses(START, ops, md5);
    RunStaysSound(START, ops, md5, {}, {});
    if Addressed(a, q) && Count(q) > 0 && Expected(a, q, md5) == Field(q, "response") {
      var fields := Parse(q.header).value;
      ParsesExactly(q.header, fields);
      AddressedIsMade(a, md5, q, fields);
      PassesWhenFresh(ops, md5, q);
    }
    forall fields, n, count | Writes(q.header, fields) && Makes(a, md5, q, fields, n, count)
      ensures Addressed(a, q) && Target(a, q) == n && Count(q) == count && Expected(a, q, md5) == Field(q, "response")
    {
      ParsesExactly(q.header, fields);
      MadeIsAddressed(a, md5, q, fields, n, count);
    }
  }

  lemma PassesWhenFresh(ops: seq<Op>, md5: string -> string, q: Request)
    requires DistinctNonces(START, ops, md5, {}) && Addressed(After(START, ops, md5), q) && Count(q) > 0
    ensures var a := After(START, ops, md5);
      Passes(Target(a, q).replay, Count(q)) <==> Fresh(Uses(START, ops, md5), Field(q, "nonce"), Count(q))
  {
    var a, uses := After(START, ops, md5), Uses(START, ops, md5);
    RunStaysSound(START, ops, md5, {}, {});
    assert {} + Members(uses) == Members(uses);
    FindFirst(a.nonces, Field(q, "nonce"));
    PassesExactly(Target(a, q).replay, CountsOf(Members(uses), Field(q, "nonce")), Count(q));
    UnusedIsFresh(uses, Field(q, "nonce"), Target(a, q).replay, Count(q));
  }

  // ---------- nonces on hand ----------

  datatype Challenge = Challenge(value: string, at: nat)

  /** The challenges given since the verifier was last set, in order. */
  function Challenges(ops: seq<Op>): seq<Challenge> {
    if ops == [] then []
    else
      var before, op := Challenges(ops[..|ops| - 1]), ops[|ops| - 1];
      match op
      case Configuring(_, _) => []
      case Challenging(now, random) => if Verifier(ops[..|ops| - 1]) != "" && Hex(random, 48) then before + [Challenge(random, now)] else before
      case Authorizing(_) => before
  }

  function Verifier(ops: seq<Op>): string {
    if ops == [] then "" else if ops[|ops| - 1].Configuring? then ops[|ops| - 1].verifier else Verifier(ops[..|ops| - 1])
  }

  function Identity(n: Nonce): Challenge { Challenge(n.value, n.issued) }

  function Identities(nonces: seq<Nonce>): seq<Challenge> { seq(|nonces|, i requires 0 <= i < |nonces| => Identity(nonces[i])) }

  function Last(s: seq<Challenge>, n: nat): seq<Challenge> { if |s| <= n then s else s[|s| - n..] }

  lemma {:induction false} AfterSnoc(a: Auth, ops: seq<Op>, md5: string -> string)
    requires ops != []
    ensures After(a, ops, md5) == Step(After(a, ops[..|ops| - 1], md5), ops[|ops| - 1], md5)
    decreases |ops|
  {
    if |ops| > 1 {
      AfterSnoc(Step(a, ops[0], md5), ops[1..], md5);
      assert ops[..|ops| - 1][1..] == ops[1..][..|ops| - 2] && ops[..|ops| - 1][0] == ops[0];
    } else {
      assert ops[..0] == [];
    }
  }

  lemma StepIdentities(a: Auth, op: Op, md5: string -> string)
    ensures op.Authorizing? ==> Identities(Step(a, op, md5).nonces) == Identities(a.nonces)
    ensures op.Challenging? && Issues(a, op.random) ==>
      Identities(Step(a, op, md5).nonces) == (if |a.nonces| >= 8 then Identities(a.nonces)[1..] else Identities(a.nonces)) + [Challenge(op.random, op.now)]
  {
    if op.Authorizing? && Judge(a, op.request, md5) == Accepted {
      AcceptedIsAddressed(a, op.request, md5);
    }
  }

  /** The nonces on hand are the last eight given since the verifier was set, each with the time it was given. */
  lemma {:induction false} OnHandExactly(ops: seq<Op>, md5: string -> string)
    ensures var a := After(START, ops, md5); Identities(a.nonces) == Last(Challenges(ops), 8) && a.verifier == Verifier(ops)
  {
    if ops != [] {
      var before := ops[..|ops| - 1];
      OnHandExactly(before, md5);
      AfterSnoc(START, ops, md5);
      StepIdentities(After(START, before, md5), ops[|ops| - 1], md5);
    }
  }
}
