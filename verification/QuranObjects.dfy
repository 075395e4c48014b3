/**
 The incremental splitter of a provider's object list, and the grammar it decides:
 one keyed array of brace-balanced, string-aware objects, as in sections 4, 5 and 7
 of RFC 8259, with the provider's byte limits.
 */
module QuranObjects {
  import opened Wrappers

  const MAX_BYTES := 1048576
  const MAX_ITEM := 16384

  predicate Space(c: char) { c == ' ' || '\t' <= c <= '\r' }

  function PrefixOf(key: string): string { "{\"" + key + "\":[" }

  /** Where the splitter stands. */
  datatype Phase =
    | Prefix(pos: nat)
    | Expect(first: bool)
    | Inside(item: string, depth: nat, quoted: bool, escaped: bool)
    | After
    | Closed
    | Finished
    | Failed

  datatype Fed = Fed(phase: Phase, found: Option<string>)

  function Plainly(p: Phase): Fed { Fed(p, None) }

  function InsideStep(p: Phase, c: char): Fed
    requires p.Inside?
  {
    if |p.item| >= MAX_ITEM then Plainly(Failed)
    else
      var item := p.item + [c];
      if p.quoted then
        if p.escaped then Plainly(Inside(item, p.depth, true, false))
        else if c == '\\' then Plainly(Inside(item, p.depth, true, true))
        else Plainly(Inside(item, p.depth, c != '"', false))
      else if c == '"' then Plainly(Inside(item, p.depth, true, p.escaped))
      else if c == '{' then Plainly(Inside(item, p.depth + 1, false, p.escaped))
      else if c == '}' && p.depth <= 1 then Fed(After, Some(item))
      else if c == '}' then Plainly(Inside(item, p.depth - 1, false, p.escaped))
      else Plainly(Inside(item, p.depth, false, p.escaped))
  }

  /** One character, before the limit on the whole input. */
  function Step(prefix: string, p: Phase, c: char): Fed {
    match p
    case Failed => Plainly(Failed)
    case Prefix(pos) =>
      if pos >= |prefix| then Plainly(Failed)
      else if Space(c) && (pos <= 1 || pos + 2 >= |prefix|) then Plainly(p)
      else if c != prefix[pos] then Plainly(Failed)
      else Plainly(if pos + 1 < |prefix| then Prefix(pos + 1) else Expect(true))
    case Inside(_, _, _, _) => InsideStep(p, c)
    case Expect(first) =>
      if Space(c) then Plainly(p)
      else if c == ']' && first then Plainly(Closed)
      else if c == '{' then Plainly(Inside("{", 1, false, false))
      else Plainly(Failed)
    case After =>
      if Space(c) then Plainly(p)
      else if c == ',' then Plainly(Expect(false))
      else if c == ']' then Plainly(Closed)
      else Plainly(Failed)
    case Closed =>
      if Space(c) then Plainly(p) else if c == '}' then Plainly(Finished) else Plainly(Failed)
    case Finished =>
      if Space(c) then Plainly(p) else Plainly(Failed)
  }

  class QuranObjectStream {
    const prefix: string
    var item: string
    var prefixPos: nat
    var bytes: nat
    var depth: nat
    var quoted: bool
    var escaped: bool
    var separator: bool
    var comma: bool
    var closed: bool
    var finished: bool
    var failed: bool

    ghost predicate Valid()
      reads this
    {
      !failed ==>
        && 5 <= |prefix| && prefixPos <= |prefix| && bytes <= MAX_BYTES
        && (prefixPos < |prefix| ==> depth == 0 && !separator && !comma && !closed && !finished)
        && (0 < depth ==> !separator && !comma && !closed && !finished)
        && (depth == 0 ==> item == "" && !quoted && !escaped)
        && (separator ==> !comma) && (closed ==> !comma) && (finished ==> closed) && (escaped ==> quoted)
    }

    ghost function Phase(): Phase
      reads this
    {
      if failed then Failed
      else if prefixPos < |prefix| then Prefix(prefixPos)
      else if 0 < depth then Inside(item, depth, quoted, escaped)
      else if finished then Finished
      else if closed then Closed
      else if separator then After
      else Expect(!comma)
    }

    constructor (key: string)
      ensures Valid() && prefix == PrefixOf(key) && Phase() == Prefix(0) && bytes == 0
    {
      prefix := PrefixOf(key);
      item := "";
      prefixPos, bytes, depth := 0, 0, 0;
      quoted, escaped, separator, comma, closed, finished, failed := false, false, false, false, false, false, false;
    }

    /** Takes in one character; a completed object is handed back in `found`. */
    method Feed(c: char) returns (ok: bool, found: string)
      requires Valid()
      modifies this
      ensures Valid() && bytes == old(bytes) + 1
      ensures Phase() == if old(bytes) + 1 > MAX_BYTES then Failed else Step(prefix, old(Phase()), c).phase
      ensures found == if old(bytes) + 1 > MAX_BYTES || Step(prefix, old(Phase()), c).found.None? then "" else Step(prefix, old(Phase()), c).found.value
      ensures ok == (Phase() != Failed)
    {
      found := "";
      bytes := bytes + 1;
      if bytes > MAX_BYTES || failed {
        failed := true;
        return false, "";
      }
      if prefixPos < |prefix| {
        if Space(c) && (prefixPos <= 1 || prefixPos >= |prefix| - 2) {
          return true, "";
        }
        prefixPos := prefixPos + 1;
        if c != prefix[prefixPos - 1] {
          failed := true;
          return false, "";
        }
        return true, "";
      }
      if depth > 0 {
        ok, found := FeedInside(c);
        return;
      }
      if Space(c) {
        return true, "";
      }
      if finished {
        failed := true;
        return false, "";
      }
      if closed {
        failed := c != '}';
        finished := !failed;
        return !failed, "";
      }
      if separator {
        if c == ',' {
          separator, comma := false, true;
          return true, "";
        }
        failed := c != ']';
        closed := !failed;
        return !failed, "";
      }
      if c == ']' && !comma {
        closed := true;
        return true, "";
      }
      if c != '{' {
        failed := true;
        return false, "";
      }
      comma, depth, item := false, 1, "{";
      return true, "";
    }

    method FeedInside(c: char) returns (ok: bool, found: string)
      requires Valid() && !failed && prefixPos == |prefix| && 0 < depth
      modifies this
      ensures Valid() && bytes == old(bytes)
      ensures Phase() == InsideStep(old(Phase()), c).phase && ok == (Phase() != Failed)
      ensures found == if InsideStep(old(Phase()), c).found.None? then "" else InsideStep(old(Phase()), c).found.value
    {
      found := "";
      if |item| >= MAX_ITEM {
        failed := true;
        return false, "";
      }
      item := item + [c];
      if quoted {
        if escaped {
          escaped := false;
        } else if c == '\\' {
          escaped := true;
        } else if c == '"' {
          quoted := false;
        }
      } else if c == '"' {
        quoted := true;
      } else if c == '{' {
        depth := depth + 1;
      } else if c == '}' {
        depth := depth - 1;
        if depth == 0 {
          found, item := item, "";
          separator := true;
        }
      }
      return true, found;
    }

    method Complete() returns (done: bool)
      requires Valid()
      ensures done == (Phase() == Finished)
    {
      done := finished && !failed;
    }
  }
}
