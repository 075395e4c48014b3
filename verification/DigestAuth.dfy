/**
 Digest authentication of the device's own pages: at most eight server nonces, each with a
 replay window. The digest function is a parameter.
 */
module DigestAuth {
  import opened DigestHeader
  import opened ReplayWindow
  import opened Words

  const MAX_NONCES := 8
  const LIFETIME_MS := 300000

  datatype Nonce = Nonce(value: string, issued: nat, replay: Replay)

  datatype Auth = Auth(realm: string, verifier: string, nonces: seq<Nonce>)

  const START := Auth("", "", [])

  datatype Request = Request(header: string, verb: string, uri: string, now: nat)

  datatype Result = Accepted | Rejected | Stale

  /** A field that is absent reads as empty. */
  function Lookup(fields: map<string, string>, key: string): string { if key in fields then fields[key] else "" }

  function Field(q: Request, key: string): string
    requires Parse(q.header).Some?
  {
    Lookup(Parse(q.header).value, key)
  }

  predicate HexDigit(c: char) { '0' <= c <= '9' || 'a' <= c <= 'f' }

  predicate Hex(s: string, size: nat) {
    |s| == size && forall i :: 0 <= i < size ==> HexDigit(s[i])
  }

  function DigitValue(c: char): nat
    requires HexDigit(c)
  {
    if c <= '9' then c as int - '0' as int else c as int - 'a' as int + 10
  }

  function NcValue(s: string): nat
    requires Hex(s, |s|)
  {
    if s == [] then 0 else 16 * NcValue(s[..|s| - 1]) + DigitValue(s[|s| - 1])
  }

  function Pow16(n: nat): nat { if n == 0 then 1 else 16 * Pow16(n - 1) }

  lemma {:induction false} NcBound(s: string)
    requires Hex(s, |s|)
    ensures NcValue(s) < Pow16(|s|)
  {
    if s != [] { NcBound(s[..|s| - 1]); }
  }

  lemma CountFits(s: string)
    requires Hex(s, 8)
    ensures NcValue(s) < 0x1_0000_0000
  {
    NcBound(s);
    assert Pow16(8) == 0x1_0000_0000;
  }

  /** The 32-bit count of a use. */
  method ParseCount(nc: string) returns (count: u32)
    requires Hex(nc, 8)
    ensures count == NcValue(nc)
  {
    var n: nat := 0;
    var i := 0;
    while i < 8
      invariant 0 <= i <= 8 && n == NcValue(nc[..i]) && Hex(nc[..i], i)
    {
      assert nc[..i + 1][..i] == nc[..i];
      n := 16 * n + DigitValue(nc[i]);
      i := i + 1;
    }
    assert nc[..8] == nc;
    CountFits(nc);
    count := n;
  }

  /** The fields fit the realm, the resource and their formats. */
  predicate Complete(realm: string, uri: string, fields: map<string, string>) {
    && Lookup(fields, "username") == "admin" && Lookup(fields, "realm") == realm && Lookup(fields, "uri") == uri
    && Lookup(fields, "qop") == "auth" && (Lookup(fields, "algorithm") == "" || Lookup(fields, "algorithm") == "MD5")
    && Hex(Lookup(fields, "response"), 32) && Hex(Lookup(fields, "nc"), 8)
    && Lookup(fields, "cnonce") != "" && |Lookup(fields, "cnonce")| <= 64
  }

  predicate WellFormed(a: Auth, q: Request) {
    var fields := Parse(q.header);
    a.verifier != "" && fields.Some? && Complete(a.realm, q.uri, fields.value)
  }

  function Find(nonces: seq<Nonce>, value: string): (i: nat)
    ensures i <= |nonces|
  {
    if nonces == [] || nonces[0].value == value then 0 else 1 + Find(nonces[1..], value)
  }

  function Count(q: Request): u32
    requires Parse(q.header).Some? && Hex(Field(q, "nc"), 8)
  {
    CountFits(Field(q, "nc"));
    NcValue(Field(q, "nc"))
  }

  function Expected(a: Auth, q: Request, md5: string -> string): string
    requires Parse(q.header).Some?
  {
    md5(a.verifier + ":" + Field(q, "nonce") + ":" + Field(q, "nc") + ":" + Field(q, "cnonce") + ":auth:" + md5(q.verb + ":" + q.uri))
  }

  /** A well-formed request for a nonce on hand, not from before it was issued. */
  predicate Addressed(a: Auth, q: Request) {
    && WellFormed(a, q)
    && var i := Find(a.nonces, Field(q, "nonce"));
       i < |a.nonces| && a.nonces[i].issued <= q.now
  }

  function Target(a: Auth, q: Request): Nonce
    requires Addressed(a, q)
  {
    a.nonces[Find(a.nonces, Field(q, "nonce"))]
  }

  function Judge(a: Auth, q: Request, md5: string -> string): Result {
    if !Addressed(a, q) then Rejected
    else if Count(q) == 0 || !Passes(Target(a, q).replay, Count(q)) then Rejected
    else if Expected(a, q, md5) != Field(q, "response") then Rejected
    else if q.now - Target(a, q).issued >= LIFETIME_MS then Stale
    else Accepted
  }

  lemma AcceptedIsAddressed(a: Auth, q: Request, md5: string -> string)
    requires Judge(a, q, md5) != Rejected
    ensures Addressed(a, q) && Count(q) > 0 && Passes(Target(a, q).replay, Count(q))
  {
  }

  function AuthorizeSpec(a: Auth, q: Request, md5: string -> string): Auth {
    if Judge(a, q, md5) != Accepted then a
    else
      AcceptedIsAddressed(a, q, md5);
      var i := Find(a.nonces, Field(q, "nonce"));
      a.(nonces := a.nonces[i := a.nonces[i].(replay := Advance(a.nonces[i].replay, Count(q)))])
  }

  /** Whether a challenge is given at all. */
  predicate Issues(a: Auth, random: string) { a.verifier != "" && Hex(random, 48) }

  function ChallengeSpec(a: Auth, now: nat, random: string): Auth {
    if !Issues(a, random) then a
    else
      var kept := if |a.nonces| >= MAX_NONCES then a.nonces[1..] else a.nonces;
      a.(nonces := kept + [Nonce(random, now, Replay(0, 0))])
  }

  function ChallengeText(a: Auth, random: string, stale: bool): string {
    if !Issues(a, random) then ""
    else "Digest realm=\"" + a.realm + "\", nonce=\"" + random + "\", algorithm=MD5, qop=\"auth\"" + (if stale then ", stale=true" else "")
  }

  class DigestAuth {
    const md5: string -> string
    var realm: string
    var verifier: string
    var nonces: seq<Nonce>

    ghost function View(): Auth
      reads this
    {
      Auth(realm, verifier, nonces)
    }

    constructor (md5: string -> string)
      ensures View() == START && this.md5 == md5
    {
      this.md5 := md5;
      realm, verifier, nonces := "", "", [];
    }

    method Configure(realm: string, verifier: string)
      modifies this
      ensures View() == Auth(realm, verifier, [])
    {
      this.realm := realm;
      this.verifier := verifier;
      nonces := [];
    }

    method Challenge(now: nat, random: string, stale: bool) returns (header: string)
      modifies `nonces
      ensures View() == ChallengeSpec(old(View()), now, random)
      ensures header == ChallengeText(old(View()), random, stale)
    {
      if verifier == "" || !Hex(random, 48) {
        return "";
      }
      if |nonces| >= MAX_NONCES {
        nonces := nonces[1..];
      }
      nonces := nonces + [Nonce(random, now, Replay(0, 0))];
      header := "Digest realm=\"" + realm + "\", nonce=\"" + random + "\", algorithm=MD5, qop=\"auth\"" + (if stale then ", stale=true" else "");
    }

    method FindNonce(value: string) returns (i: nat)
      ensures i == Find(nonces, value)
    {
      i := 0;
      assert nonces[0..] == nonces;
      while i < |nonces| && nonces[i].value != value
        invariant 0 <= i <= |nonces|
        invariant Find(nonces, value) == i + Find(nonces[i..], value)
      {
        assert nonces[i..][1..] == nonces[i + 1..];
        i := i + 1;
      }
    }

    method Authorize(q: Request) returns (result: Result)
      modifies `nonces
      ensures result == Judge(old(View()), q, md5)
      ensures View() == AuthorizeSpec(old(View()), q, md5)
    {
      if verifier == "" {
        return Rejected;
      }
      var fields := ParseHeader(q.header);
      if fields.None? || !Complete(realm, q.uri, fields.value) {
        return Rejected;
      }
      var nonce, nc, cnonce := Lookup(fields.value, "nonce"), Lookup(fields.value, "nc"), Lookup(fields.value, "cnonce");
      var found := FindNonce(nonce);
      if found == |nonces| || q.now < nonces[found].issued {
        return Rejected;
      }
      var count := ParseCount(nc);
      if count == 0 {
        return Rejected;
      }
      var previous := nonces[found].replay;
      if !Passes(previous, count) {
        return Rejected;
      }
      var expected := md5(verifier + ":" + nonce + ":" + nc + ":" + cnonce + ":auth:" + md5(q.verb + ":" + q.uri));
      if expected != Lookup(fields.value, "response") {
        return Rejected;
      }
      if q.now - nonces[found].issued >= LIFETIME_MS {
        return Stale;
      }
      nonces := nonces[found := nonces[found].(replay := Advance(previous, count))];
      result := Accepted;
    }
  }

  // ---------- whole runs ----------

  datatype Op = Configuring(realm: string, verifier: string) | Challenging(now: nat, random: string) | Authorizing(request: Request)

  function Step(a: Auth, op: Op, md5: string -> string): Auth {
    match op
    case Configuring(realm, verifier) => Auth(realm, verifier, [])
    case Challenging(now, random) => ChallengeSpec(a, now, random)
    case Authorizing(request) => AuthorizeSpec(a, request, md5)
  }

  /** One accepted use of a server nonce. */
  datatype Use = Use(nonce: string, count: u32)

  function Accepts(a: Auth, op: Op, md5: string -> string): seq<Use> {
    if op.Authorizing? && Judge(a, op.request, md5) == Accepted then
      AcceptedIsAddressed(a, op.request, md5);
      [Use(Field(op.request, "nonce"), Count(op.request))]
    else []
  }

  /** Every use accepted along a run, in order. */
  function Uses(a: Auth, ops: seq<Op>, md5: string -> string): seq<Use>
    decreases |ops|
  {
    if ops == [] then [] else Accepts(a, ops[0], md5) + Uses(Step(a, ops[0], md5), ops[1..], md5)
  }

  function Issued(a: Auth, op: Op): set<string> {
    if op.Challenging? && Issues(a, op.random) then {op.random} else {}
  }

  /** No server nonce is issued twice. */
  ghost predicate DistinctNonces(a: Auth, ops: seq<Op>, md5: string -> string, issued: set<string>)
    decreases |ops|
  {
    ops != [] ==> Issued(a, ops[0]) !! issued && DistinctNonces(Step(a, ops[0], md5), ops[1..], md5, issued + Issued(a, ops[0]))
  }

  ghost function CountsOf(log: set<Use>, nonce: string): set<u32> { set u | u in log && u.nonce == nonce :: u.count }

  ghost predicate DistinctValues(nonces: seq<Nonce>) {
    forall i, j :: 0 <= i < j < |nonces| ==> nonces[i].value != nonces[j].value
  }

  /** Every window on hand stands for the counts accepted for its nonce. */
  ghost predicate Sound(a: Auth, issued: set<string>, log: set<Use>) {
    && |a.nonces| <= MAX_NONCES && DistinctValues(a.nonces)
    && (forall i :: 0 <= i < |a.nonces| ==> a.nonces[i].value in issued && Refines(a.nonces[i].replay, CountsOf(log, a.nonces[i].value)))
    && (forall u :: u in log ==> u.nonce in issued)
  }

  lemma {:induction false} FindFirst(nonces: seq<Nonce>, value: string)
    ensures var i := Find(nonces, value); i < |nonces| ==> nonces[i].value == value
  {
    if nonces != [] && nonces[0].value != value { FindFirst(nonces[1..], value); }
  }

  lemma CountsOfNew(log: set<Use>, nonce: string, count: u32, other: string)
    ensures CountsOf(log + {Use(nonce, count)}, other) == if other == nonce then CountsOf(log, other) + {count} else CountsOf(log, other)
  {
    var after := CountsOf(log + {Use(nonce, count)}, other);
    var before := if other == nonce then CountsOf(log, other) + {count} else CountsOf(log, other);
    forall c | c in before ensures c in after {
      if c in CountsOf(log, other) { assert Use(other, c) in log; } else { assert Use(nonce, count) in log + {Use(nonce, count)}; }
    }
  }

  /** Against any log the windows stand for. */
  lemma JudgedExactly(a: Auth, q: Request, md5: string -> string, issued: set<string>, log: set<Use>)
    requires Sound(a, issued, log) && Addressed(a, q)
    ensures Judge(a, q, md5) == Accepted <==>
              && Count(q) > 0 && Unused(Target(a, q).replay.highest, CountsOf(log, Field(q, "nonce")), Count(q))
              && Expected(a, q, md5) == Field(q, "response") && q.now < Target(a, q).issued + LIFETIME_MS
  {
    FindFirst(a.nonces, Field(q, "nonce"));
    if Count(q) > 0 { PassesExactly(Target(a, q).replay, CountsOf(log, Field(q, "nonce")), Count(q)); }
  }

  lemma AcceptStaysSound(a: Auth, q: Request, md5: string -> string, issued: set<string>, log: set<Use>)
    requires Sound(a, issued, log) && Judge(a, q, md5) == Accepted
    ensures Addressed(a, q)
    ensures var u := Use(Field(q, "nonce"), Count(q));
      u !in log && Sound(AuthorizeSpec(a, q, md5), issued, log + {u})
  {
    JudgedExactly(a, q, md5, issued, log);
    FindFirst(a.nonces, Field(q, "nonce"));
    var value, count := Field(q, "nonce"), Count(q);
    var i := Find(a.nonces, value);
    var after := AuthorizeSpec(a, q, md5).nonces;
    AdvanceRefines(a.nonces[i].replay, CountsOf(log, value), count);
    assert Use(value, count) in log ==> count in CountsOf(log, value);
    forall j | 0 <= j < |after| ensures Refines(after[j].replay, CountsOf(log + {Use(value, count)}, after[j].value)) {
      CountsOfNew(log, value, count, after[j].value);
    }
  }

  lemma ChallengeStaysSound(a: Auth, now: nat, random: string, issued: set<string>, log: set<Use>)
    requires Sound(a, issued, log) && Issues(a, random) && random !in issued
    ensures Sound(ChallengeSpec(a, now, random), issued + {random}, log)
  {
    var after := ChallengeSpec(a, now, random).nonces;
    var n := |after| - 1;
    assert CountsOf(log, random) == {};
    forall j | 0 <= j < |after| ensures after[j].value in issued + {random} && Refines(after[j].replay, CountsOf(log, after[j].value)) {
      if j < n { assert after[j] in a.nonces; }
    }
    assert forall j :: 0 <= j < n ==> after[j] in a.nonces;
  }

  ghost function Logged(log: set<Use>, a: Auth, op: Op, md5: string -> string): set<Use> {
    if Accepts(a, op, md5) == [] then log else log + {Accepts(a, op, md5)[0]}
  }

  lemma StepStaysSound(a: Auth, op: Op, md5: string -> string, issued: set<string>, log: set<Use>)
    requires Sound(a, issued, log) && Issued(a, op) !! issued
    ensures Sound(Step(a, op, md5), issued + Issued(a, op), Logged(log, a, op, md5))
    ensures Accepts(a, op, md5) != [] ==> Accepts(a, op, md5)[0] !in log
  {
    if op.Authorizing? {
      assert issued + Issued(a, op) == issued;
      if Judge(a, op.request, md5) == Accepted { AcceptStaysSound(a, op.request, md5, issued, log); }
    } else if op.Challenging? && Issues(a, op.random) {
      assert op.random in Issued(a, op);
      ChallengeStaysSound(a, op.now, op.random, issued, log);
    }
  }

  ghost predicate NoRepeats(uses: seq<Use>) { forall i, j :: 0 <= i < j < |uses| ==> uses[i] != uses[j] }

  ghost predicate NoneIn(uses: seq<Use>, log: set<Use>) { forall i :: 0 <= i < |uses| ==> uses[i] !in log }

  lemma OneInFront(first: Use, rest: seq<Use>, log: set<Use>)
    requires first !in log && NoRepeats(rest) && NoneIn(rest, log + {first})
    ensures NoRepeats([first] + rest) && NoneIn([first] + rest, log)
  {
  }

  lemma {:induction false} UsesFresh(a: Auth, ops: seq<Op>, md5: string -> string, issued: set<string>, log: set<Use>)
    requires Sound(a, issued, log) && DistinctNonces(a, ops, md5, issued)
    ensures NoRepeats(Uses(a, ops, md5)) && NoneIn(Uses(a, ops, md5), log)
    decreases |ops|
  {
    if ops != [] {
      var op := ops[0];
      var next := Step(a, op, md5);
      StepStaysSound(a, op, md5, issued, log);
      UsesFresh(next, ops[1..], md5, issued + Issued(a, op), Logged(log, a, op, md5));
      var rest := Uses(next, ops[1..], md5);
      if Accepts(a, op, md5) != [] {
        OneInFront(Accepts(a, op, md5)[0], rest, log);
      } else {
        assert [] + rest == rest;
      }
    }
  }

  /** Over a whole run from power-on, no use of a server nonce is accepted twice. */
  lemma NoReplay(ops: seq<Op>, md5: string -> string)
    requires DistinctNonces(START, ops, md5, {})
    ensures NoRepeats(Uses(START, ops, md5))
  {
    UsesFresh(START, ops, md5, {}, {});
  }

  // ---------- what is accepted after a run ----------

  /** The state after a run. */
  function After(a: Auth, ops: seq<Op>, md5: string -> string): Auth
    decreases |ops|
  {
    if ops == [] then a else After(Step(a, ops[0], md5), ops[1..], md5)
  }

  ghost function IssuedBy(a: Auth, ops: seq<Op>, md5: string -> string): set<string>
    decreases |ops|
  {
    if ops == [] then {} else Issued(a, ops[0]) + IssuedBy(Step(a, ops[0], md5), ops[1..], md5)
  }

  ghost function Members(uses: seq<Use>): set<Use> { set u | u in uses }

  lemma MembersOfFront(a: Auth, ops: seq<Op>, md5: string -> string, log: set<Use>)
    requires ops != []
    ensures log + Members(Uses(a, ops, md5)) == Logged(log, a, ops[0], md5) + Members(Uses(Step(a, ops[0], md5), ops[1..], md5))
  {
  }

  lemma {:induction false} RunStaysSound(a: Auth, ops: seq<Op>, md5: string -> string, issued: set<string>, log: set<Use>)
    requires Sound(a, issued, log) && DistinctNonces(a, ops, md5, issued)
    ensures Sound(After(a, ops, md5), issued + IssuedBy(a, ops, md5), log + Members(Uses(a, ops, md5)))
    decreases |ops|
  {
    if ops == [] {
      assert issued + {} == issued && log + Members([]) == log;
    } else {
      var next := Step(a, ops[0], md5);
      StepStaysSound(a, ops[0], md5, issued, log);
      RunStaysSound(next, ops[1..], md5, issued + Issued(a, ops[0]), Logged(log, a, ops[0], md5));
      MembersOfFront(a, ops, md5, log);
      assert issued + Issued(a, ops[0]) + IssuedBy(next, ops[1..], md5) == issued + IssuedBy(a, ops, md5);
    }
  }

  /** Not used before for this nonce, and no count of 32 more has been. */
  ghost predicate Fresh(uses: seq<Use>, nonce: string, count: u32) {
    Use(nonce, count) !in uses && forall u :: u in uses && u.nonce == nonce ==> u.count < count + 32
  }

  lemma UnusedIsFresh(uses: seq<Use>, nonce: string, r: Replay, count: u32)
    requires Refines(r, CountsOf(Members(uses), nonce)) && count > 0
    ensures Unused(r.highest, CountsOf(Members(uses), nonce), count) <==> Fresh(uses, nonce, count)
  {
    var counts := CountsOf(Members(uses), nonce);
    forall u | u in uses && u.nonce == nonce
      ensures u.count in counts
    {
      assert u in Members(uses);
    }
    if r.highest > 0 {
      var u :| u in Members(uses) && u.nonce == nonce && u.count == r.highest;
      assert u in uses;
    }
    if count in counts {
      var u :| u in Members(uses) && u.nonce == nonce && u.count == count;
      assert u == Use(nonce, count) && u in uses;
    }
  }

  /**
   After any run from power-on in which no nonce is issued twice, a request for a nonce
   on hand is accepted if and only if its count is nonzero and fresh among all uses
   accepted so far, its response is right and its nonce is young enough.
   */
  lemma AcceptsExactly(ops: seq<Op>, md5: string -> string, q: Request)
    requires DistinctNonces(START, ops, md5, {}) && Addressed(After(START, ops, md5), q)
    ensures var a := After(START, ops, md5);
      Judge(a, q, md5) == Accepted <==>
        && Count(q) > 0 && Fresh(Uses(START, ops, md5), Field(q, "nonce"), Count(q))
        && Expected(a, q, md5) == Field(q, "response") && q.now < Target(a, q).issued + LIFETIME_MS
  {
    var a, uses := After(START, ops, md5), Uses(START, ops, md5);
    RunStaysSound(START, ops, md5, {}, {});
    var issued, log := {} + IssuedBy(START, ops, md5), {} + Members(uses);
    assert log == Members(uses);
    JudgedExactly(a, q, md5, issued, log);
    FindFirst(a.nonces, Field(q, "nonce"));
    if Count(q) > 0 {
      UnusedIsFresh(uses, Field(q, "nonce"), Target(a, q).replay, Count(q));
    }
  }
}
