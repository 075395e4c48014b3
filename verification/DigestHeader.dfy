/**
 The Authorization header of a Digest request (section 3.4 of RFC 7616): a cursor over
 `key=value` fields, values quoted or plain, and the texts it accepts.
 */
module DigestHeader {
  import opened Sequences
  import opened Wrappers

  const MAX_HEADER := 2048
  const PREFIX := "Digest "

  predicate KeyChar(c: char) { 'a' <= c <= 'z' || c == '_' }

  predicate Blank(c: char) { c == ' ' }

  predicate TokenChar(c: char) { c != ',' && c != ' ' }

  predicate Printable(c: char) { ' ' <= c <= '~' }

  /** Where the characters from `i` on stop satisfying `p`. */
  function Span(h: string, i: nat, p: char -> bool): (j: nat)
    requires i <= |h|
    ensures i <= j <= |h|
    decreases |h| - i
  {
    if i == |h| || !p(h[i]) then i else Span(h, i + 1, p)
  }

  /** A value, and where the cursor stands behind it. */
  datatype Part = Part(value: string, at: nat)

  /** A quoted value behind its opening quote. */
  function Unquote(h: string, i: nat): (r: Option<Part>)
    requires i <= |h|
    ensures r.Some? ==> i < r.value.at <= |h|
    decreases |h| - i
  {
    if i == |h| then None
    else if h[i] == '"' then Some(Part("", i + 1))
    else if h[i] == '\\' then if i + 1 == |h| then None else Glued(h[i + 1], Unquote(h, i + 2))
    else Glued(h[i], Unquote(h, i + 1))
  }

  function Glued(c: char, more: Option<Part>): Option<Part> {
    if !Printable(c) || more.None? then None else Some(Part([c] + more.value.value, more.value.at))
  }

  function ValueOf(h: string, i: nat): (r: Option<Part>)
    requires i <= |h|
    ensures r.Some? ==> i <= r.value.at <= |h|
  {
    if i < |h| && h[i] == '"' then Unquote(h, i + 1)
    else
      var end := Span(h, i, TokenChar);
      Some(Part(h[i..end], end))
  }

  /** A key behind blanks, up to its equals sign. */
  function KeyOf(h: string, i: nat): (r: Option<Part>)
    requires i <= |h|
    ensures r.Some? ==> i < r.value.at <= |h|
  {
    var from := Span(h, i, Blank);
    var end := Span(h, from, KeyChar);
    if end == from || end == |h| || h[end] != '=' then None else Some(Part(h[from..end], end + 1))
  }

  datatype Item = Item(key: string, value: string, at: nat)

  /** One field from `i` on, with the blanks around it. */
  function OneField(h: string, i: nat): (r: Option<Item>)
    ensures r.Some? ==> i < r.value.at <= |h|
  {
    if i > |h| then None
    else
      var key := KeyOf(h, i);
      if key.None? then None
      else
        var v := ValueOf(h, key.value.at);
        if v.None? then None else Some(Item(key.value.value, v.value.value, Span(h, v.value.at, Blank)))
  }

  /** A way to read one field; the loop over them needs to know no more of it. */
  type Reader = (string, nat) -> Option<Item>

  ghost predicate Advances(read: Reader, h: string) {
    forall i: nat :: read(h, i).Some? ==> i < read(h, i).value.at <= |h|
  }

  /** The fields from `i` on, separated by commas; a key given twice is refused. */
  function FieldsFrom(read: Reader, h: string, i: nat, out: map<string, string>): Option<map<string, string>>
    requires i <= |h| && Advances(read, h)
    decreases |h| - i
  {
    if i == |h| then Some(out)
    else
      var f := read(h, i);
      if f.None? || f.value.key in out then None
      else
        var more, at := out[f.value.key := f.value.value], f.value.at;
        if at == |h| then Some(more)
        else if h[at] != ',' || at + 1 == |h| then None
        else FieldsFrom(read, h, at + 1, more)
  }

  function Parse(header: string): Option<map<string, string>> {
    if |header| > MAX_HEADER || !(PREFIX <= header) then None else FieldsFrom(OneField, header, |PREFIX|, map[])
  }

  // ---------- the cursor ----------

  method Skip(header: string, start: nat, p: char -> bool) returns (at: nat)
    requires start <= |header|
    ensures at == Span(header, start, p)
  {
    at := start;
    while at < |header| && p(header[at])
      invariant start <= at <= |header| && Span(header, start, p) == Span(header, at, p)
    {
      at := at + 1;
    }
  }

  /** The quoted value read so far in front of what the rest of it gives. */
  function Prepended(value: string, more: Option<Part>): Option<Part> {
    if more.None? then None else Some(Part(value + more.value.value, more.value.at))
  }

  lemma PrependedEnds(value: string, at: nat, more: Option<Part>)
    ensures Prepended("", more) == more
    ensures Prepended(value, Some(Part("", at))) == Some(Part(value, at))
  {
    assert value + "" == value;
    if more.Some? { assert "" + more.value.value == more.value.value; }
  }

  lemma PrependedGlued(value: string, c: char, more: Option<Part>)
    ensures Printable(c) ==> Prepended(value, Glued(c, more)) == Prepended(value + [c], more)
    ensures !Printable(c) ==> Prepended(value, Glued(c, more)).None?
  {
    if more.Some? { Regroup(value, [c], more.value.value); }
  }

  method ReadQuoted(header: string, start: nat) returns (value: Option<Part>)
    requires start <= |header|
    ensures value == Unquote(header, start)
  {
    var text, at := "", start;
    PrependedEnds("", start, Unquote(header, start));
    while at < |header|
      invariant start <= at <= |header| && Unquote(header, start) == Prepended(text, Unquote(header, at))
    {
      var c := header[at];
      at := at + 1;
      if c == '"' {
        PrependedEnds(text, at, None);
        return Some(Part(text, at));
      }
      if c == '\\' {
        if at == |header| {
          return None;
        }
        c := header[at];
        at := at + 1;
      }
      PrependedGlued(text, c, Unquote(header, at));
      if !Printable(c) {
        return None;
      }
      text := text + [c];
    }
    value := None;
  }

  method ReadValue(header: string, start: nat) returns (value: Option<Part>)
    requires start <= |header|
    ensures value == ValueOf(header, start)
  {
    if start < |header| && header[start] == '"' {
      value := ReadQuoted(header, start + 1);
    } else {
      var at := Skip(header, start, TokenChar);
      value := Some(Part(header[start..at], at));
    }
  }

  method ReadField(header: string, start: nat) returns (field: Option<Item>)
    requires start <= |header|
    ensures field == OneField(header, start)
  {
    var from := Skip(header, start, Blank);
    var at := Skip(header, from, KeyChar);
    var key := header[from..at];
    if key == "" || at == |header| || header[at] != '=' {
      return None;
    }
    var value := ReadValue(header, at + 1);
    if value.None? {
      return None;
    }
    at := Skip(header, value.value.at, Blank);
    field := Some(Item(key, value.value.value, at));
  }

  /** The loop over the fields; a key given twice is refused. */
  method ParseHeader(header: string) returns (fields: Option<map<string, string>>)
    ensures fields == Parse(header)
  {
    if |header| > MAX_HEADER || !(PREFIX <= header) {
      return None;
    }
    var out: map<string, string> := map[];
    var at := |PREFIX|;
    while at < |header|
      invariant |PREFIX| <= at <= |header| && Parse(header) == FieldsFrom(OneField, header, at, out)
    {
      var field := ReadField(header, at);
      if field.None? || field.value.key in out {
        return None;
      }
      out := out[field.value.key := field.value.value];
      at := field.value.at;
      if at == |header| {
        return Some(out);
      }
      if header[at] != ',' || at + 1 == |header| {
        return None;
      }
      at := at + 1;
    }
    return Some(out);
  }

  // ---------- the texts accepted ----------

  datatype Quotable = Plain(c: char) | Escaped(c: char)

  datatype Raw = Token(text: string) | Quoted(chars: seq<Quotable>)

  /** One field as it is written, with the blanks around it. */
  datatype Written = Written(before: nat, key: string, raw: Raw, after: nat)

  predicate All(s: string, p: char -> bool) { forall i :: 0 <= i < |s| ==> p(s[i]) }

  predicate WellQuoted(q: Quotable) { Printable(q.c) && (q.Plain? ==> q.c != '"' && q.c != '\\') }

  predicate AllQuoted(chars: seq<Quotable>) { forall i :: 0 <= i < |chars| ==> WellQuoted(chars[i]) }

  predicate WellRaw(raw: Raw) {
    match raw
    case Token(text) => All(text, TokenChar) && (text != "" ==> text[0] != '"')
    case Quoted(chars) => AllQuoted(chars)
  }

  predicate WellWritten(w: Written) { w.key != "" && All(w.key, KeyChar) && WellRaw(w.raw) }

  function RawValue(raw: Raw): string {
    match raw
    case Token(text) => text
    case Quoted(chars) => QuotedValue(chars)
  }

  function QuotedValue(chars: seq<Quotable>): string {
    if chars == [] then "" else [chars[0].c] + QuotedValue(chars[1..])
  }

  /** The fields added to `out`, or none when a key repeats. */
  function Gathered(ws: seq<Written>, out: map<string, string>): Option<map<string, string>> {
    if ws == [] then Some(out)
    else if ws[0].key in out then None
    else Gathered(ws[1..], out[ws[0].key := RawValue(ws[0].raw)])
  }

  /** From `i` on the header spells `s`. */
  predicate Spells(h: string, i: nat, s: string) { i + |s| <= |h| && h[i..i + |s|] == s }

  predicate BlankFor(h: string, i: nat, n: nat) { i + n <= |h| && forall k :: i <= k < i + n ==> Blank(h[k]) }

  /** Quoted characters and the closing quote. */
  predicate QuotedAt(h: string, i: nat, chars: seq<Quotable>)
    decreases |chars|
  {
    && i < |h|
    && if chars == [] then h[i] == '"'
       else if chars[0].Plain? then h[i] == chars[0].c && QuotedAt(h, i + 1, chars[1..])
       else h[i] == '\\' && i + 1 < |h| && h[i + 1] == chars[0].c && QuotedAt(h, i + 2, chars[1..])
  }

  function QuotedEnd(i: nat, chars: seq<Quotable>): (end: nat)
    ensures i < end
    decreases |chars|
  {
    if chars == [] then i + 1 else QuotedEnd(if chars[0].Plain? then i + 1 else i + 2, chars[1..])
  }

  predicate RawAt(h: string, i: nat, raw: Raw) {
    match raw
    case Token(text) => Spells(h, i, text)
    case Quoted(chars) => i < |h| && h[i] == '"' && QuotedAt(h, i + 1, chars)
  }

  function RawEnd(i: nat, raw: Raw): nat {
    match raw
    case Token(text) => i + |text|
    case Quoted(chars) => QuotedEnd(i + 1, chars)
  }

  /** Where the value of a field begins that is written from `i` on, and where the field ends. */
  function ValueStart(i: nat, w: Written): nat { i + w.before + |w.key| + 1 }

  function End(i: nat, w: Written): nat { RawEnd(ValueStart(i, w), w.raw) + w.after }

  /** From `i` on the header spells the field `w`, with its blanks. */
  predicate FieldAt(h: string, i: nat, w: Written) {
    var from, value := i + w.before, ValueStart(i, w);
    && BlankFor(h, i, w.before) && Spells(h, from, w.key)
    && value <= |h| && h[value - 1] == '=' && RawAt(h, value, w.raw) && BlankFor(h, RawEnd(value, w.raw), w.after)
  }

  /** Where the field `w` ends that the header spells from `i` on, if it does. */
  function Spelled(h: string, i: nat, w: Written): Option<nat> {
    if WellWritten(w) && FieldAt(h, i, w) then Some(End(i, w)) else None
  }

  type Speller = (string, nat, Written) -> Option<nat>

  /** From `i` to its end the header spells these fields, separated by commas. */
  predicate Lists(spelled: Speller, h: string, i: nat, ws: seq<Written>)
    decreases |ws|
  {
    if ws == [] then i == |h|
    else
      var end := spelled(h, i, ws[0]);
      && end.Some?
      && if |ws| == 1 then end.value == |h|
         else end.value + 1 < |h| && h[end.value] == ',' && Lists(spelled, h, end.value + 1, ws[1..])
  }

  lemma {:induction false} SpanOver(h: string, i: nat, j: nat, p: char -> bool)
    requires i <= j <= |h| && (forall k :: i <= k < j ==> p(h[k])) && (j == |h| || !p(h[j]))
    ensures Span(h, i, p) == j
    decreases j - i
  {
    if i < j { SpanOver(h, i + 1, j, p); }
  }

  lemma SpanSpelled(h: string, i: nat, s: string, p: char -> bool)
    requires Spells(h, i, s) && All(s, p) && (i + |s| == |h| || !p(h[i + |s|]))
    ensures Span(h, i, p) == i + |s|
  {
    forall k | i <= k < i + |s|
      ensures p(h[k])
    {
      assert h[k] == h[i..i + |s|][k - i];
    }
    SpanOver(h, i, i + |s|, p);
  }

  lemma {:induction false} QuotedReads(h: string, i: nat, chars: seq<Quotable>)
    requires AllQuoted(chars) && QuotedAt(h, i, chars)
    ensures QuotedEnd(i, chars) <= |h| && Unquote(h, i) == Some(Part(QuotedValue(chars), QuotedEnd(i, chars)))
    decreases |chars|
  {
    if chars != [] {
      assert WellQuoted(chars[0]);
      QuotedReads(h, if chars[0].Plain? then i + 1 else i + 2, chars[1..]);
    }
  }

  lemma RawReads(h: string, i: nat, raw: Raw)
    requires WellRaw(raw) && RawAt(h, i, raw)
    requires RawEnd(i, raw) < |h| ==> !TokenChar(h[RawEnd(i, raw)])
    ensures i <= RawEnd(i, raw) <= |h| && ValueOf(h, i) == Some(Part(RawValue(raw), RawEnd(i, raw)))
  {
    match raw
    case Token(text) =>
      SpanSpelled(h, i, text, TokenChar);
      if text != "" { assert h[i] == h[i..i + |text|][0]; }
    case Quoted(chars) =>
      QuotedReads(h, i + 1, chars);
  }

  lemma KeyReads(h: string, i: nat, before: nat, key: string)
    requires BlankFor(h, i, before) && Spells(h, i + before, key) && key != "" && All(key, KeyChar)
    requires i + before + |key| < |h| && h[i + before + |key|] == '='
    ensures KeyOf(h, i) == Some(Part(key, i + before + |key| + 1))
  {
    var from := i + before;
    assert h[from] == h[from..from + |key|][0] && KeyChar(key[0]);
    SpanOver(h, i, from, Blank);
    SpanSpelled(h, from, key, KeyChar);
  }

  /** A field is read as it is meant, up to the comma or the end behind it. */
  lemma FieldReads(h: string, i: nat, w: Written)
    requires WellWritten(w) && FieldAt(h, i, w) && (End(i, w) == |h| || h[End(i, w)] == ',')
    ensures OneField(h, i) == Some(Item(w.key, RawValue(w.raw), End(i, w)))
  {
    var value := ValueStart(i, w);
    var end := RawEnd(value, w.raw);
    KeyReads(h, i, w.before, w.key);
    if end < |h| && w.after > 0 { assert Blank(h[end]); }
    RawReads(h, value, w.raw);
    SpanOver(h, end, End(i, w), Blank);
  }

  /** What is spelled up to a comma or the end is read. */
  ghost predicate SpelledIsRead(read: Reader, spelled: Speller, h: string) {
    forall i: nat, w :: spelled(h, i, w).Some? && StopsAt(h, spelled(h, i, w).value) ==>
      read(h, i) == Some(Item(w.key, RawValue(w.raw), spelled(h, i, w).value))
  }

  ghost predicate ReadIsSpelled(read: Reader, spelled: Speller, h: string) {
    forall i: nat :: read(h, i).Some? ==> exists w :: Reads(spelled, h, i, read(h, i).value, w)
  }

  predicate StopsAt(h: string, end: nat) { end == |h| || (end < |h| && h[end] == ',') }

  predicate Reads(spelled: Speller, h: string, i: nat, f: Item, w: Written) {
    spelled(h, i, w) == Some(f.at) && f.key == w.key && f.value == RawValue(w.raw)
  }

  lemma FieldsStep(read: Reader, h: string, i: nat, out: map<string, string>, f: Item)
    requires i < |h| && Advances(read, h) && read(h, i) == Some(f)
    ensures i < f.at <= |h|
    ensures FieldsFrom(read, h, i, out) ==
      if f.key in out then None
      else if f.at == |h| then Some(out[f.key := f.value])
      else if h[f.at] != ',' || f.at + 1 == |h| then None
      else FieldsFrom(read, h, f.at + 1, out[f.key := f.value])
  {
  }

  /** Listed fields are read, or refused for a repeated key. */
  lemma {:induction false} ListReads(read: Reader, spelled: Speller, h: string, i: nat, ws: seq<Written>, out: map<string, string>)
    requires i <= |h| && Advances(read, h) && SpelledIsRead(read, spelled, h) && Lists(spelled, h, i, ws)
    ensures FieldsFrom(read, h, i, out) == Gathered(ws, out)
    decreases |ws|
  {
    if ws != [] {
      var w := ws[0];
      var end := spelled(h, i, w).value;
      var f := Item(w.key, RawValue(w.raw), end);
      assert StopsAt(h, end) && read(h, i) == Some(f);
      FieldsStep(read, h, i, out, f);
      if |ws| == 1 {
        assert ws[1..] == [];
      } else if w.key !in out {
        ListReads(read, spelled, h, end + 1, ws[1..], out[w.key := f.value]);
      }
    }
  }

  lemma OneMore(w: Written, more: seq<Written>, out: map<string, string>)
    ensures ([w] + more)[1..] == more
    ensures w.key !in out ==> Gathered([w] + more, out) == Gathered(more, out[w.key := RawValue(w.raw)])
  {
    assert ([w] + more)[1..] == more;
  }

  /** And fields that are read are listed. */
  lemma {:induction false} ListFrom(read: Reader, spelled: Speller, h: string, i: nat, out: map<string, string>) returns (ws: seq<Written>)
    requires i <= |h| && Advances(read, h) && ReadIsSpelled(read, spelled, h) && FieldsFrom(read, h, i, out).Some?
    ensures Lists(spelled, h, i, ws) && Gathered(ws, out) == FieldsFrom(read, h, i, out) && (i < |h| ==> ws != [])
    decreases |h| - i
  {
    ws := [];
    if i < |h| {
      var f := read(h, i).value;
      var w :| Reads(spelled, h, i, f, w);
      FieldsStep(read, h, i, out, f);
      if f.at < |h| {
        ws := ListFrom(read, spelled, h, f.at + 1, out[f.key := f.value]);
      }
      OneMore(w, ws, out);
      ws := [w] + ws;
    }
  }

  // ---------- and no others ----------

  lemma {:induction false} SpanIs(h: string, i: nat, p: char -> bool)
    requires i <= |h|
    ensures var j := Span(h, i, p);
      (forall k :: i <= k < j ==> p(h[k])) && (j == |h| || !p(h[j]))
    decreases |h| - i
  {
    if i < Span(h, i, p) { SpanIs(h, i + 1, p); }
  }

  lemma AllOf(h: string, i: nat, j: nat, p: char -> bool)
    requires i <= j <= |h| && forall k :: i <= k < j ==> p(h[k])
    ensures All(h[i..j], p) && Spells(h, i, h[i..j])
  {
  }

  lemma {:induction false} QuotedFrom(h: string, i: nat) returns (chars: seq<Quotable>)
    requires i <= |h| && Unquote(h, i).Some?
    ensures AllQuoted(chars) && QuotedAt(h, i, chars)
    ensures Unquote(h, i) == Some(Part(QuotedValue(chars), QuotedEnd(i, chars)))
    decreases |h| - i
  {
    if h[i] == '"' {
      chars := [];
    } else {
      var q := if h[i] == '\\' then Escaped(h[i + 1]) else Plain(h[i]);
      var more := QuotedFrom(h, if q.Plain? then i + 1 else i + 2);
      chars := [q] + more;
      assert chars[1..] == more;
    }
  }

  lemma RawFrom(h: string, i: nat) returns (raw: Raw)
    requires i <= |h| && ValueOf(h, i).Some?
    ensures WellRaw(raw) && RawAt(h, i, raw) && ValueOf(h, i) == Some(Part(RawValue(raw), RawEnd(i, raw)))
  {
    if i < |h| && h[i] == '"' {
      var chars := QuotedFrom(h, i + 1);
      raw := Quoted(chars);
    } else {
      SpanIs(h, i, TokenChar);
      AllOf(h, i, Span(h, i, TokenChar), TokenChar);
      raw := Token(h[i..Span(h, i, TokenChar)]);
    }
  }

  lemma KeyFrom(h: string, i: nat)
    requires i <= |h| && KeyOf(h, i).Some?
    ensures var key, before := KeyOf(h, i).value, Span(h, i, Blank) - i;
      && key.value != "" && All(key.value, KeyChar) && BlankFor(h, i, before) && Spells(h, i + before, key.value)
      && key.at == i + before + |key.value| + 1 && h[key.at - 1] == '='
  {
    var from := Span(h, i, Blank);
    SpanIs(h, i, Blank);
    SpanIs(h, from, KeyChar);
    AllOf(h, from, Span(h, from, KeyChar), KeyChar);
  }

  /** Whatever is read as a field is written as one. */
  lemma FieldFrom(h: string, i: nat) returns (w: Written)
    requires i <= |h| && OneField(h, i).Some?
    ensures WellWritten(w) && FieldAt(h, i, w) && OneField(h, i) == Some(Item(w.key, RawValue(w.raw), End(i, w)))
  {
    var key := KeyOf(h, i).value;
    KeyFrom(h, i);
    var raw := RawFrom(h, key.at);
    var end := RawEnd(key.at, raw);
    SpanIs(h, end, Blank);
    w := Written(Span(h, i, Blank) - i, key.value, raw, Span(h, end, Blank) - end);
  }

  lemma FieldsAgree(h: string)
    ensures SpelledIsRead(OneField, Spelled, h) && ReadIsSpelled(OneField, Spelled, h)
  {
    forall i: nat, w | Spelled(h, i, w).Some? && StopsAt(h, Spelled(h, i, w).value)
      ensures OneField(h, i) == Some(Item(w.key, RawValue(w.raw), Spelled(h, i, w).value))
    {
      FieldReads(h, i, w);
    }
    forall i: nat | OneField(h, i).Some?
      ensures exists w :: Reads(Spelled, h, i, OneField(h, i).value, w)
    {
      var w := FieldFrom(h, i);
      assert Reads(Spelled, h, i, OneField(h, i).value, w);
    }
  }

  /** Behind the scheme the header spells fields with distinct keys that stand for `fields`. */
  ghost predicate Writes(header: string, fields: map<string, string>) {
    && |header| <= MAX_HEADER && PREFIX <= header
    && exists ws :: Lists(Spelled, header, |PREFIX|, ws) && Gathered(ws, map[]) == Some(fields)
  }

  /** The cursor accepts exactly the headers that spell fields, and gives what they spell. */
  lemma ParsesExactly(header: string, fields: map<string, string>)
    ensures Parse(header) == Some(fields) <==> Writes(header, fields)
  {
    FieldsAgree(header);
    if Parse(header) == Some(fields) {
      var ws := ListFrom(OneField, Spelled, header, |PREFIX|, map[]);
    }
    if Writes(header, fields) {
      var ws :| Lists(Spelled, header, |PREFIX|, ws) && Gathered(ws, map[]) == Some(fields);
      ListReads(OneField, Spelled, header, |PREFIX|, ws, map[]);
    }
  }
}
