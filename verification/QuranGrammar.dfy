/**
 The whole-string grammar of an object list, stated apart from the splitter: parse trees
 and their texts. The splitter completes on a string exactly when the string is the text
 of a tree within the limits, and then hands back that tree's objects in order.
 */
module QuranGrammar {
  import opened Sequences
  import opened Wrappers
  import opened QuranObjects

  // ---------- parse trees ----------

  /** The inside of a string literal, up to its closing quote. */
  datatype Quoted = Quote | Raw(c: char, more: Quoted) | Escaped(c: char, more: Quoted)

  /** The inside of an object, up to its closing brace. */
  datatype Body = Brace | Plain(c: char, more: Body) | Literal(text: Quoted, more: Body) | Nested(inner: Body, more: Body)

  /** What may follow an object of the array. */
  datatype Rest = End(space: string) | More(before: string, after: string, body: Body, rest: Rest)

  datatype List = Empty(space: string) | First(space: string, body: Body, rest: Rest)

  datatype Document = Document(lead: string, name: string, colon: string, open: string, list: List, close: string, trail: string)

  ghost predicate Blank(s: string) { forall i :: 0 <= i < |s| ==> Space(s[i]) }

  ghost predicate QuotedForm(q: Quoted) {
    match q
    case Quote => true
    case Raw(c, more) => c != '"' && c != '\\' && QuotedForm(more)
    case Escaped(_, more) => QuotedForm(more)
  }

  ghost predicate BodyForm(b: Body) {
    match b
    case Brace => true
    case Plain(c, more) => c != '"' && c != '{' && c != '}' && BodyForm(more)
    case Literal(text, more) => QuotedForm(text) && BodyForm(more)
    case Nested(inner, more) => BodyForm(inner) && BodyForm(more)
  }

  function QuotedText(q: Quoted): (s: string)
    ensures |s| >= 1
  {
    match q
    case Quote => "\""
    case Raw(c, more) => [c] + QuotedText(more)
    case Escaped(c, more) => ['\\', c] + QuotedText(more)
  }

  function BodyText(b: Body): (s: string)
    ensures |s| >= 1
  {
    match b
    case Brace => "}"
    case Plain(c, more) => [c] + BodyText(more)
    case Literal(text, more) => "\"" + QuotedText(text) + BodyText(more)
    case Nested(inner, more) => "{" + BodyText(inner) + BodyText(more)
  }

  function ObjectText(b: Body): string { "{" + BodyText(b) }

  ghost predicate Fits(b: Body) { BodyForm(b) && |ObjectText(b)| <= MAX_ITEM }

  ghost predicate RestForm(r: Rest) {
    match r
    case End(space) => Blank(space)
    case More(before, after, body, rest) => Blank(before) && Blank(after) && Fits(body) && RestForm(rest)
  }

  function RestText(r: Rest): string {
    match r
    case End(space) => space + "]"
    case More(before, after, body, rest) => before + "," + after + ObjectText(body) + RestText(rest)
  }

  function RestObjects(r: Rest): seq<string> {
    match r
    case End(_) => []
    case More(_, _, body, rest) => [ObjectText(body)] + RestObjects(rest)
  }

  ghost predicate ListForm(l: List) {
    match l
    case Empty(space) => Blank(space)
    case First(space, body, rest) => Blank(space) && Fits(body) && RestForm(rest)
  }

  function ListText(l: List): string {
    match l
    case Empty(space) => space + "]"
    case First(space, body, rest) => space + ObjectText(body) + RestText(rest)
  }

  function ListObjects(l: List): seq<string> {
    match l
    case Empty(_) => []
    case First(_, body, rest) => [ObjectText(body)] + RestObjects(rest)
  }

  ghost predicate DocumentForm(d: Document) {
    Blank(d.lead) && Blank(d.name) && Blank(d.colon) && Blank(d.open) && ListForm(d.list) && Blank(d.close) && Blank(d.trail)
  }

  function DocumentText(key: string, d: Document): string {
    d.lead + "{" + (d.name + ("\"" + key + "\"") + (d.colon + ":" + (d.open + "[" + AfterOpen(d))))
  }

  function AfterOpen(d: Document): string { ListText(d.list) + (d.close + "}" + d.trail) }

  // ---------- runs ----------

  datatype Outcome = Outcome(phase: Phase, found: seq<string>)

  function Emitted(found: Option<string>): seq<string> {
    if found.Some? then [found.value] else []
  }

  /** The splitter on a whole string, from a phase. */
  function Run(prefix: string, p: Phase, w: string): Outcome
    decreases |w|
  {
    if w == [] then Outcome(p, [])
    else
      var fed := Step(prefix, p, w[0]);
      var rest := Run(prefix, fed.phase, w[1..]);
      Outcome(rest.phase, Emitted(fed.found) + rest.found)
  }

  /** Running on `a + b` from p is running on `b` from q, with `found` handed back on the way. */
  ghost predicate Leads(prefix: string, p: Phase, a: string, q: Phase, found: seq<string>) {
    Run(prefix, p, a) == Outcome(q, found)
  }

  lemma {:induction false} Chain(prefix: string, p: Phase, a: string, q: Phase, found: seq<string>, b: string)
    requires Leads(prefix, p, a, q, found)
    ensures Run(prefix, p, a + b) == Outcome(Run(prefix, q, b).phase, found + Run(prefix, q, b).found)
    decreases |a|, 0
  {
    if a == [] {
      assert a + b == b;
    } else {
      var fed := Step(prefix, p, a[0]);
      FrontOf(a, b);
      ChainOn(prefix, fed.phase, a[1..], q, Emitted(fed.found), found, b);
    }
  }

  lemma {:induction false} ChainOn(prefix: string, p: Phase, a: string, q: Phase, first: seq<string>, found: seq<string>, b: string)
    requires Run(prefix, p, a).phase == q && first + Run(prefix, p, a).found == found
    ensures Run(prefix, p, a + b).phase == Run(prefix, q, b).phase
    ensures first + Run(prefix, p, a + b).found == found + Run(prefix, q, b).found
    decreases |a|, 1
  {
    var more := Run(prefix, p, a).found;
    Chain(prefix, p, a, q, more, b);
    Regroup(first, more, Run(prefix, q, b).found);
  }

  lemma One(prefix: string, p: Phase, c: char)
    ensures Leads(prefix, p, [c], Step(prefix, p, c).phase, Emitted(Step(prefix, p, c).found))
  {
    var fed := Step(prefix, p, c);
    assert [c][1..] == [];
    assert Run(prefix, fed.phase, []) == Outcome(fed.phase, []);
  }

  lemma Pair(prefix: string, p: Phase, a: string, q: Phase, e: seq<string>, b: string, r: Phase, f: seq<string>)
    requires Leads(prefix, p, a, q, e) && Leads(prefix, q, b, r, f)
    ensures Leads(prefix, p, a + b, r, e + f)
  {
    Chain(prefix, p, a, q, e, b);
  }

  lemma {:induction false} FailedStays(prefix: string, w: string)
    ensures Leads(prefix, Failed, w, Failed, [])
    decreases |w|
  {
    if w != [] { FailedStays(prefix, w[1..]); }
  }

  /** White space is skipped in this phase. */
  ghost predicate Skips(prefix: string, p: Phase) {
    match p
    case Prefix(pos) => pos < |prefix| && (pos <= 1 || pos + 2 >= |prefix|)
    case Expect(_) => true
    case After => true
    case Closed => true
    case Finished => true
    case Inside(_, _, _, _) => false
    case Failed => false
  }

  lemma {:induction false} RunBlank(prefix: string, p: Phase, s: string)
    requires Skips(prefix, p) && Blank(s)
    ensures Leads(prefix, p, s, p, [])
    decreases |s|
  {
    if s != [] { RunBlank(prefix, p, s[1..]); }
  }

  /** Blank space and then one character that is not blank. */
  lemma BlankThen(prefix: string, p: Phase, s: string, c: char)
    requires Skips(prefix, p) && Blank(s)
    ensures Leads(prefix, p, s + [c], Step(prefix, p, c).phase, Emitted(Step(prefix, p, c).found))
  {
    RunBlank(prefix, p, s);
    One(prefix, p, c);
    Pair(prefix, p, s, p, [], [c], Step(prefix, p, c).phase, Emitted(Step(prefix, p, c).found));
  }

  // ---------- every well-formed text is accepted ----------

  lemma RunEscape(prefix: string, item: string, depth: nat, c: char)
    requires |item| + 2 <= MAX_ITEM
    ensures Leads(prefix, Inside(item, depth, true, false), ['\\', c], Inside(item + ['\\', c], depth, true, false), [])
  {
    var mid := Inside(item + ['\\'], depth, true, true);
    One(prefix, Inside(item, depth, true, false), '\\');
    One(prefix, mid, c);
    Regroup(item, ['\\'], [c]);
    assert ['\\'] + [c] == ['\\', c];
    Pair(prefix, Inside(item, depth, true, false), ['\\'], mid, [], [c], Inside(item + ['\\', c], depth, true, false), []);
  }

  lemma {:induction false} RunQuoted(prefix: string, item: string, depth: nat, q: Quoted)
    requires QuotedForm(q) && |item| + |QuotedText(q)| <= MAX_ITEM
    ensures Leads(prefix, Inside(item, depth, true, false), QuotedText(q), Inside(item + QuotedText(q), depth, false, false), [])
    decreases q
  {
    var p := Inside(item, depth, true, false);
    match q
    case Quote => One(prefix, p, '"');
    case Raw(c, more) =>
      One(prefix, p, c);
      RunQuoted(prefix, item + [c], depth, more);
      Regroup(item, [c], QuotedText(more));
      Pair(prefix, p, [c], Inside(item + [c], depth, true, false), [], QuotedText(more), Inside(item + QuotedText(q), depth, false, false), []);
    case Escaped(c, more) =>
      RunEscape(prefix, item, depth, c);
      RunQuoted(prefix, item + ['\\', c], depth, more);
      Regroup(item, ['\\', c], QuotedText(more));
      Pair(prefix, p, ['\\', c], Inside(item + ['\\', c], depth, true, false), [], QuotedText(more), Inside(item + QuotedText(q), depth, false, false), []);
  }

  /** A marked stretch inside an object: mark, what it encloses, and the rest of the object. */
  lemma Enclosed(prefix: string, item: string, depth: nat, mark: char, open: Phase, inner: string, more: string, text: string)
    requires depth >= 1 && text == [mark] + inner + more
    requires Leads(prefix, Inside(item, depth, false, false), [mark], open, [])
    requires Leads(prefix, open, inner, Inside(item + [mark] + inner, depth, false, false), [])
    requires Leads(prefix, Inside(item + [mark] + inner, depth, false, false), more,
                   Closing(item + [mark] + inner + more, depth), Handed(item + [mark] + inner + more, depth))
    ensures Leads(prefix, Inside(item, depth, false, false), text, Closing(item + text, depth), Handed(item + text, depth))
  {
    var p := Inside(item, depth, false, false);
    var mid := Inside(item + [mark] + inner, depth, false, false);
    Pair(prefix, p, [mark], open, [], inner, mid, []);
    BracedText(item, [mark], inner, more, []);
    Pair(prefix, p, [mark] + inner, mid, [], more, Closing(item + text, depth), Handed(item + text, depth));
  }

  lemma BracedText(item: string, mark: string, inner: string, more: string, u: string)
    ensures item + mark + inner + more == item + (mark + inner + more)
    ensures mark + (inner + (more + u)) == mark + inner + more + u
  {
  }

  /** Where the brace that ends `item` at this depth leads, and what it hands back. */
  function Closing(item: string, depth: nat): Phase {
    if depth <= 1 then After else Inside(item, depth - 1, false, false)
  }

  function Handed(item: string, depth: nat): seq<string> {
    if depth <= 1 then [item] else []
  }

  lemma {:induction false} RunBody(prefix: string, item: string, depth: nat, b: Body)
    requires depth >= 1 && BodyForm(b) && |item| + |BodyText(b)| <= MAX_ITEM
    ensures Leads(prefix, Inside(item, depth, false, false), BodyText(b), Closing(item + BodyText(b), depth), Handed(item + BodyText(b), depth))
    decreases b, 1
  {
    var p := Inside(item, depth, false, false);
    match b
    case Brace => One(prefix, p, '}');
    case Plain(c, more) =>
      One(prefix, p, c);
      RunBody(prefix, item + [c], depth, more);
      assert item + BodyText(b) == item + [c] + BodyText(more);
      Pair(prefix, p, [c], Inside(item + [c], depth, false, false), [], BodyText(more), Closing(item + BodyText(b), depth), Handed(item + BodyText(b), depth));
    case Literal(text, more) => RunLiteral(prefix, item, depth, text, more);
    case Nested(inner, more) => RunNested(prefix, item, depth, inner, more);
  }

  lemma {:induction false} RunNested(prefix: string, item: string, depth: nat, inner: Body, more: Body)
    requires depth >= 1 && BodyForm(inner) && BodyForm(more) && |item| + |BodyText(Nested(inner, more))| <= MAX_ITEM
    ensures Leads(prefix, Inside(item, depth, false, false), BodyText(Nested(inner, more)),
                  Closing(item + BodyText(Nested(inner, more)), depth), Handed(item + BodyText(Nested(inner, more)), depth))
    decreases Nested(inner, more), 0
  {
    var p := Inside(item, depth, false, false);
    One(prefix, p, '{');
    RunBody(prefix, item + ['{'], depth + 1, inner);
    RunBody(prefix, item + ['{'] + BodyText(inner), depth, more);
    Enclosed(prefix, item, depth, '{', Inside(item + ['{'], depth + 1, false, false), BodyText(inner), BodyText(more), BodyText(Nested(inner, more)));
  }

  lemma {:induction false} RunLiteral(prefix: string, item: string, depth: nat, text: Quoted, more: Body)
    requires depth >= 1 && QuotedForm(text) && BodyForm(more) && |item| + |BodyText(Literal(text, more))| <= MAX_ITEM
    ensures Leads(prefix, Inside(item, depth, false, false), BodyText(Literal(text, more)),
                  Closing(item + BodyText(Literal(text, more)), depth), Handed(item + BodyText(Literal(text, more)), depth))
    decreases Literal(text, more), 0
  {
    var p := Inside(item, depth, false, false);
    One(prefix, p, '"');
    RunQuoted(prefix, item + ['"'], depth, text);
    RunBody(prefix, item + ['"'] + QuotedText(text), depth, more);
    Enclosed(prefix, item, depth, '"', Inside(item + ['"'], depth, true, false), QuotedText(text), BodyText(more), BodyText(Literal(text, more)));
  }

  lemma RunObject(prefix: string, first: bool, space: string, b: Body)
    requires Blank(space) && Fits(b)
    ensures Leads(prefix, Expect(first), space + ObjectText(b), After, [ObjectText(b)])
  {
    BlankThen(prefix, Expect(first), space, '{');
    RunBody(prefix, "{", 1, b);
    Pair(prefix, Expect(first), space + ['{'], Inside("{", 1, false, false), [], BodyText(b), After, [ObjectText(b)]);
    assert space + ObjectText(b) == space + ['{'] + BodyText(b);
  }

  lemma {:induction false} RunRest(prefix: string, r: Rest)
    requires RestForm(r)
    ensures Leads(prefix, After, RestText(r), Closed, RestObjects(r))
    decreases r
  {
    match r
    case End(space) => BlankThen(prefix, After, space, ']');
    case More(before, after, body, rest) =>
      BlankThen(prefix, After, before, ',');
      RunObject(prefix, false, after, body);
      RunRest(prefix, rest);
      var inner := after + ObjectText(body);
      Pair(prefix, Expect(false), inner, After, [ObjectText(body)], RestText(rest), Closed, RestObjects(rest));
      Pair(prefix, After, before + [','], Expect(false), [], inner + RestText(rest), Closed, RestObjects(r));
      CommaText(before, [','], after, ObjectText(body), RestText(rest));
  }

  lemma CommaText(before: string, comma: string, after: string, body: string, rest: string)
    ensures before + comma + (after + body + rest) == before + comma + after + body + rest
  {
  }

  lemma RunList(prefix: string, l: List)
    requires ListForm(l)
    ensures Leads(prefix, Expect(true), ListText(l), Closed, ListObjects(l))
  {
    match l
    case Empty(space) => BlankThen(prefix, Expect(true), space, ']');
    case First(space, body, rest) =>
      RunObject(prefix, true, space, body);
      RunRest(prefix, rest);
      Pair(prefix, Expect(true), space + ObjectText(body), After, [ObjectText(body)], RestText(rest), Closed, RestObjects(rest));
  }

  lemma RunAfterOpen(prefix: string, d: Document)
    requires DocumentForm(d)
    ensures Leads(prefix, Expect(true), AfterOpen(d), Finished, ListObjects(d.list))
  {
    RunList(prefix, d.list);
    BlankThen(prefix, Closed, d.close, '}');
    RunBlank(prefix, Finished, d.trail);
    Pair(prefix, Closed, d.close + ['}'], Finished, [], d.trail, Finished, []);
    Pair(prefix, Expect(true), ListText(d.list), Closed, ListObjects(d.list), d.close + "}" + d.trail, Finished, []);
  }

  /** The quoted key is matched character by character, with no space allowed. */
  lemma {:induction false} RunKey(prefix: string, pos: nat, stop: nat)
    requires 2 <= pos <= stop <= |prefix| - 2
    ensures Leads(prefix, Prefix(pos), prefix[pos..stop], Prefix(stop), [])
    decreases stop - pos
  {
    if pos < stop {
      One(prefix, Prefix(pos), prefix[pos]);
      RunKey(prefix, pos + 1, stop);
      Pair(prefix, Prefix(pos), [prefix[pos]], Prefix(pos + 1), [], prefix[pos + 1..stop], Prefix(stop), []);
      assert prefix[pos..stop] == [prefix[pos]] + prefix[pos + 1..stop];
    }
  }

  lemma PrefixParts(key: string)
    ensures var prefix := PrefixOf(key); var n := |prefix|;
      && n == |key| + 5 && prefix[0] == '{' && prefix[1] == '"' && prefix[n - 2] == ':' && prefix[n - 1] == '['
      && prefix[2..n - 2] == key + "\""
  {
  }

  lemma RunDocument(key: string, d: Document)
    requires DocumentForm(d)
    ensures Leads(PrefixOf(key), Prefix(0), DocumentText(key, d), Finished, ListObjects(d.list))
  {
    var prefix := PrefixOf(key);
    var n := |prefix|;
    PrefixParts(key);
    BlankThen(prefix, Prefix(0), d.lead, '{');
    BlankThen(prefix, Prefix(1), d.name, '"');
    RunKey(prefix, 2, n - 2);
    BlankThen(prefix, Prefix(n - 2), d.colon, ':');
    BlankThen(prefix, Prefix(n - 1), d.open, '[');
    RunAfterOpen(prefix, d);
    var objects := ListObjects(d.list);
    var inner := d.open + ['['] + AfterOpen(d);
    Pair(prefix, Prefix(n - 1), d.open + ['['], Expect(true), [], AfterOpen(d), Finished, objects);
    Pair(prefix, Prefix(n - 2), d.colon + [':'], Prefix(n - 1), [], inner, Finished, objects);
    var value := d.colon + [':'] + inner;
    Pair(prefix, Prefix(2), key + "\"", Prefix(n - 2), [], value, Finished, objects);
    Pair(prefix, Prefix(1), d.name + ['"'], Prefix(2), [], key + "\"" + value, Finished, objects);
    var member := d.name + ['"'] + (key + "\"" + value);
    Pair(prefix, Prefix(0), d.lead + ['{'], Prefix(1), [], member, Finished, objects);
    MemberText(d.name, key, value);
  }

  lemma MemberText(name: string, key: string, value: string)
    ensures name + ['"'] + (key + "\"" + value) == name + ("\"" + key + "\"") + value
  {
  }

  // ---------- everything accepted is a well-formed text ----------

  ghost predicate Ends(prefix: string, p: Phase, w: string) { Run(prefix, p, w).phase == Finished }

  /** The first character of a run that ends well does not fail. */
  lemma Peel(prefix: string, p: Phase, w: string)
    requires Ends(prefix, p, w) && w != []
    ensures Step(prefix, p, w[0]).phase != Failed && Ends(prefix, Step(prefix, p, w[0]).phase, w[1..])
  {
    FailedStays(prefix, w[1..]);
  }

  /** Splits off the blank space before the first character that is not skipped. */
  lemma {:induction false} ParseBlank(prefix: string, p: Phase, w: string) returns (s: string, u: string)
    requires Skips(prefix, p) && Ends(prefix, p, w)
    ensures w == s + u && Blank(s) && Ends(prefix, p, u)
    ensures u == [] || !Space(u[0])
    decreases |w|
  {
    if w == [] || !Space(w[0]) {
      s, u := [], w;
    } else {
      Peel(prefix, p, w);
      s, u := ParseBlank(prefix, p, w[1..]);
      s := [w[0]] + s;
    }
  }

  lemma EscapedText(item: string, c: char, d: char, more: string, u: string, w: string)
    requires |w| >= 2 && w[0] == c && w[1] == d && w[2..] == more + u
    ensures w == [c, d] + more + u && item + [c] + [d] + more == item + ([c, d] + more)
  {
    assert w == [c, d] + w[2..];
  }

  lemma {:induction false} ParseQuoted(prefix: string, item: string, depth: nat, w: string) returns (q: Quoted, u: string)
    requires Ends(prefix, Inside(item, depth, true, false), w)
    ensures QuotedForm(q) && w == QuotedText(q) + u && |item| + |QuotedText(q)| <= MAX_ITEM
    ensures Ends(prefix, Inside(item + QuotedText(q), depth, false, false), u)
    decreases |w|
  {
    Peel(prefix, Inside(item, depth, true, false), w);
    if w[0] == '"' {
      q, u := Quote, w[1..];
    } else if w[0] == '\\' {
      Peel(prefix, Inside(item + [w[0]], depth, true, true), w[1..]);
      q, u := ParseQuoted(prefix, item + [w[0]] + [w[1]], depth, w[2..]);
      assert w[1..][1..] == w[2..];
      EscapedText(item, w[0], w[1], QuotedText(q), u, w);
      q := Escaped(w[1], q);
    } else {
      q, u := ParseQuoted(prefix, item + [w[0]], depth, w[1..]);
      assert item + [w[0]] + QuotedText(q) == item + QuotedText(Raw(w[0], q));
      q := Raw(w[0], q);
    }
  }

  lemma {:induction false} ParseBody(prefix: string, item: string, depth: nat, w: string) returns (b: Body, u: string)
    requires depth >= 1 && Ends(prefix, Inside(item, depth, false, false), w)
    ensures BodyForm(b) && w == BodyText(b) + u && |item| + |BodyText(b)| <= MAX_ITEM
    ensures Ends(prefix, Closing(item + BodyText(b), depth), u)
    decreases |w|
  {
    Peel(prefix, Inside(item, depth, false, false), w);
    var c := w[0];
    if c == '}' {
      b, u := Brace, w[1..];
    } else if c == '"' {
      b, u := ParseLiteral(prefix, item, depth, w);
    } else if c == '{' {
      b, u := ParseNested(prefix, item, depth, w);
    } else {
      b, u := ParseBody(prefix, item + [c], depth, w[1..]);
      assert item + [c] + BodyText(b) == item + BodyText(Plain(c, b));
      b := Plain(c, b);
    }
  }

  lemma {:induction false} ParseLiteral(prefix: string, item: string, depth: nat, w: string) returns (b: Body, u: string)
    requires depth >= 1 && w != [] && w[0] == '"' && Ends(prefix, Inside(item, depth, false, false), w)
    ensures BodyForm(b) && w == BodyText(b) + u && |item| + |BodyText(b)| <= MAX_ITEM
    ensures Ends(prefix, Closing(item + BodyText(b), depth), u)
    decreases |w|, 0
  {
    Peel(prefix, Inside(item, depth, false, false), w);
    var q, t := ParseQuoted(prefix, item + ['"'], depth, w[1..]);
    var more, v := ParseBody(prefix, item + ['"'] + QuotedText(q), depth, t);
    b, u := Literal(q, more), v;
    BracedText(item, ['"'], QuotedText(q), BodyText(more), v);
  }

  lemma {:induction false} ParseNested(prefix: string, item: string, depth: nat, w: string) returns (b: Body, u: string)
    requires depth >= 1 && w != [] && w[0] == '{' && Ends(prefix, Inside(item, depth, false, false), w)
    ensures BodyForm(b) && w == BodyText(b) + u && |item| + |BodyText(b)| <= MAX_ITEM
    ensures Ends(prefix, Closing(item + BodyText(b), depth), u)
    decreases |w|, 0
  {
    Peel(prefix, Inside(item, depth, false, false), w);
    var inner, t := ParseBody(prefix, item + ['{'], depth + 1, w[1..]);
    var more, v := ParseBody(prefix, item + ['{'] + BodyText(inner), depth, t);
    b, u := Nested(inner, more), v;
    BracedText(item, ['{'], BodyText(inner), BodyText(more), v);
  }

  /** An object, once blank space before it has been split off. */
  lemma ParseObject(prefix: string, first: bool, w: string) returns (b: Body, u: string)
    requires Ends(prefix, Expect(first), w) && w != [] && w[0] == '{'
    ensures Fits(b) && w == ObjectText(b) + u && Ends(prefix, After, u)
  {
    Peel(prefix, Expect(first), w);
    b, u := ParseBody(prefix, "{", 1, w[1..]);
    assert w == "{" + (BodyText(b) + u);
  }

  lemma MoreText(s: string, comma: string, t: string, body: string, rest: string, z: string)
    ensures s + (comma + (t + (body + (rest + z)))) == s + comma + t + body + rest + z
  {
  }

  lemma {:induction false} ParseRest(prefix: string, w: string) returns (r: Rest, u: string)
    requires Ends(prefix, After, w)
    ensures RestForm(r) && w == RestText(r) + u && Ends(prefix, Closed, u)
    decreases |w|
  {
    var s, v := ParseBlank(prefix, After, w);
    Peel(prefix, After, v);
    if v[0] == ']' {
      r, u := End(s), v[1..];
      assert w == s + "]" + u;
    } else {
      var t, x := ParseBlank(prefix, Expect(false), v[1..]);
      Peel(prefix, Expect(false), x);
      var body, y := ParseObject(prefix, false, x);
      var rest, z := ParseRest(prefix, y);
      r, u := More(s, t, body, rest), z;
      MoreText(s, [','], t, ObjectText(body), RestText(rest), z);
      assert v == [','] + v[1..];
    }
  }

  lemma ParseList(prefix: string, w: string) returns (l: List, u: string)
    requires Ends(prefix, Expect(true), w)
    ensures ListForm(l) && w == ListText(l) + u && Ends(prefix, Closed, u)
  {
    var s, v := ParseBlank(prefix, Expect(true), w);
    Peel(prefix, Expect(true), v);
    if v[0] == ']' {
      l, u := Empty(s), v[1..];
    } else {
      var body, y := ParseObject(prefix, true, v);
      var rest, z := ParseRest(prefix, y);
      l, u := First(s, body, rest), z;
      assert w == s + (ObjectText(body) + (RestText(rest) + z));
    }
  }

  lemma {:induction false} ParseKey(prefix: string, pos: nat, w: string) returns (u: string)
    requires 2 <= pos <= |prefix| - 2 && Ends(prefix, Prefix(pos), w)
    ensures w == prefix[pos..|prefix| - 2] + u && Ends(prefix, Prefix(|prefix| - 2), u)
    decreases |prefix| - pos
  {
    if pos == |prefix| - 2 {
      u := w;
    } else {
      Peel(prefix, Prefix(pos), w);
      u := ParseKey(prefix, pos + 1, w[1..]);
      assert prefix[pos..|prefix| - 2] == [prefix[pos]] + prefix[pos + 1..|prefix| - 2];
    }
  }

  /** Blank space and then the fixed character at a position that allows space. */
  lemma ParseMark(prefix: string, pos: nat, w: string) returns (s: string, u: string)
    requires Skips(prefix, Prefix(pos)) && !Space(prefix[pos]) && Ends(prefix, Prefix(pos), w)
    ensures Blank(s) && w == s + [prefix[pos]] + u
    ensures Ends(prefix, if pos + 1 < |prefix| then Prefix(pos + 1) else Expect(true), u)
  {
    var v;
    s, v := ParseBlank(prefix, Prefix(pos), w);
    Peel(prefix, Prefix(pos), v);
    u := v[1..];
  }

  lemma DocumentPieces(key: string, d: Document, w: string, w1: string, w2: string, w3: string, w4: string, w5: string, w6: string)
    requires w == d.lead + ['{'] + w1 && w1 == d.name + ['"'] + w2 && w2 == key + "\"" + w3 && w3 == d.colon + [':'] + w4
    requires w4 == d.open + ['['] + w5 && w5 == ListText(d.list) + w6 && w6 == d.close + ("}" + d.trail)
    ensures w == DocumentText(key, d)
  {
    assert w6 == d.close + "}" + d.trail;
    Regroup(d.name, "\"", key + "\"" + w3);
    assert ['"'] + w2 == "\"" + key + "\"" + w3;
  }

  lemma ParseDocument(key: string, w: string) returns (d: Document)
    requires Ends(PrefixOf(key), Prefix(0), w)
    ensures DocumentForm(d) && w == DocumentText(key, d)
  {
    var prefix := PrefixOf(key);
    var n := |prefix|;
    PrefixParts(key);
    var lead, w1 := ParseMark(prefix, 0, w);
    var name, w2 := ParseMark(prefix, 1, w1);
    var w3 := ParseKey(prefix, 2, w2);
    var colon, w4 := ParseMark(prefix, n - 2, w3);
    var open, w5 := ParseMark(prefix, n - 1, w4);
    var list, w6 := ParseList(prefix, w5);
    var close, w7 := ParseBlank(prefix, Closed, w6);
    Peel(prefix, Closed, w7);
    var trail, w8 := ParseBlank(prefix, Finished, w7[1..]);
    if w8 != [] { Peel(prefix, Finished, w8); }
    d := Document(lead, name, colon, open, list, close, trail);
    assert w7 == "}" + trail;
    DocumentPieces(key, d, w, w1, w2, w3, w4, w5, w6);
  }

  // ---------- the splitter decides the grammar ----------

  ghost predicate IsDocument(key: string, w: string) {
    exists d :: DocumentForm(d) && w == DocumentText(key, d)
  }

  lemma Decides(key: string, w: string)
    ensures Ends(PrefixOf(key), Prefix(0), w) <==> IsDocument(key, w)
  {
    if Ends(PrefixOf(key), Prefix(0), w) {
      var d := ParseDocument(key, w);
    }
    if IsDocument(key, w) {
      var d :| DocumentForm(d) && w == DocumentText(key, d);
      RunDocument(key, d);
    }
  }

  /** Two readings of one text agree on its objects. */
  lemma SameObjects(key: string, c: Document, d: Document)
    requires DocumentForm(c) && DocumentForm(d) && DocumentText(key, c) == DocumentText(key, d)
    ensures ListObjects(c.list) == ListObjects(d.list)
  {
    RunDocument(key, c);
    RunDocument(key, d);
  }

  /** After i characters the splitter is in phase p, having handed back `found`. */
  ghost predicate Reached(prefix: string, w: string, i: nat, p: Phase, found: seq<string>) {
    i <= |w| && Run(prefix, Prefix(0), w) == Outcome(Run(prefix, p, w[i..]).phase, found + Run(prefix, p, w[i..]).found)
  }

  lemma Advance(prefix: string, w: string, i: nat, p: Phase, found: seq<string>)
    requires i < |w| && Reached(prefix, w, i, p, found)
    ensures var fed := Step(prefix, p, w[i]); Reached(prefix, w, i + 1, fed.phase, found + Emitted(fed.found))
  {
    var fed := Step(prefix, p, w[i]);
    assert w[i..][1..] == w[i + 1..] && w[i..][0] == w[i];
    Regroup(found, Emitted(fed.found), Run(prefix, fed.phase, w[i + 1..]).found);
  }

  /** A character is refused only on the way to a text that is no document within the limit. */
  lemma Refused(key: string, w: string, i: nat, found: seq<string>)
    requires Reached(PrefixOf(key), w, i, Failed, found)
    ensures !IsDocument(key, w)
  {
    FailedStays(PrefixOf(key), w[i..]);
    Decides(key, w);
  }

  lemma Completed(key: string, w: string, p: Phase, found: seq<string>)
    requires Reached(PrefixOf(key), w, |w|, p, found)
    ensures p == Finished <==> IsDocument(key, w)
    ensures ObjectsOf(key, w, found)
  {
    assert w[|w|..] == [];
    Decides(key, w);
    forall d | DocumentForm(d) && w == DocumentText(key, d) ensures found == ListObjects(d.list) {
      RunDocument(key, d);
    }
  }

  /** A completed object is never the empty string, which is how it is told from none. */
  lemma FoundIsObject(prefix: string, p: Phase, c: char)
    ensures Step(prefix, p, c).found.Some? ==> Step(prefix, p, c).found.value != ""
  {
  }

  /** Every reading of the text has exactly these objects, in this order. */
  ghost predicate ObjectsOf(key: string, w: string, found: seq<string>) {
    forall d :: DocumentForm(d) && w == DocumentText(key, d) ==> found == ListObjects(d.list)
  }

  /** One turn of the reading loop. */
  method FeedNext(parser: QuranObjectStream, key: string, w: string, i: nat, found: seq<string>) returns (ok: bool, more: seq<string>)
    requires i < |w| && parser.Valid() && parser.prefix == PrefixOf(key) && parser.bytes == i <= MAX_BYTES
    requires Reached(PrefixOf(key), w, i, parser.Phase(), found)
    modifies parser
    ensures parser.Valid() && parser.bytes == i + 1
    ensures ok ==> i < MAX_BYTES && Reached(PrefixOf(key), w, i + 1, parser.Phase(), more)
    ensures !ok ==> MAX_BYTES < |w| || !IsDocument(key, w)
  {
    Advance(PrefixOf(key), w, i, parser.Phase(), found);
    FoundIsObject(PrefixOf(key), parser.Phase(), w[i]);
    ghost var fed := Step(PrefixOf(key), parser.Phase(), w[i]);
    var part;
    ok, part := parser.Feed(w[i]);
    more := if part == "" then found else found + [part];
    if i < MAX_BYTES {
      assert more == found + Emitted(fed.found);
      if !ok { Refused(key, w, i + 1, more); }
    }
  }

  /** Reads a whole reply with the splitter, giving up at the first character it refuses. */
  method Objects(key: string, w: string) returns (complete: bool, found: seq<string>)
    ensures complete <==> |w| <= MAX_BYTES && IsDocument(key, w)
    ensures complete ==> ObjectsOf(key, w, found)
  {
    var parser := new QuranObjectStream(key);
    found := [];
    var i := 0;
    assert w[0..] == w;
    while i < |w|
      invariant 0 <= i <= |w| && parser.Valid() && parser.prefix == PrefixOf(key) && parser.bytes == i <= MAX_BYTES && fresh(parser)
      invariant Reached(PrefixOf(key), w, i, parser.Phase(), found)
    {
      var ok;
      ok, found := FeedNext(parser, key, w, i, found);
      if !ok {
        return false, found;
      }
      i := i + 1;
    }
    complete := parser.Complete();
    Completed(key, w, parser.Phase(), found);
  }
}
