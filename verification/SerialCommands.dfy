/** Commands carried by frames: a command byte and counted fields, written by either side. */
module SerialCommands {
  import opened SerialFrames
  import opened Wrappers
  import opened Words

  const RPC_KIND: byte := 3

  type Field = seq<byte>

  function Counted(f: Field): seq<byte> { [|f| % 0x100] + f }

  function Packed(fields: seq<Field>): seq<byte> {
    if fields == [] then [] else Counted(fields[0]) + Packed(fields[1..])
  }

  /** What both writers accept: short fields, within one frame. */
  predicate Sendable(fields: seq<Field>) {
    (forall i :: 0 <= i < |fields| ==> |fields[i]| <= 251) && |Packed(fields)| <= 253
  }

  function Rpc(command: byte, fields: seq<Field>): seq<byte>
    requires Sendable(fields)
  {
    [command, |Packed(fields)|] + Packed(fields)
  }

  /** How a command is laid out: its byte, the length of the rest, and each field behind its own length. */
  lemma RpcLayout(command: byte, field: Field, more: seq<Field>)
    ensures Packed([]) == [] && (|field| <= 251 ==> Packed([field] + more) == [|field|] + field + Packed(more))
    ensures Sendable(more) ==> Rpc(command, more) == [command, |Packed(more)|] + Packed(more) && |Rpc(command, more)| <= 255
    ensures Sendable([field] + more) <==> |field| <= 251 && Sendable(more) && 1 + |field| + |Packed(more)| <= 253
  {
    var all := [field] + more;
    assert all[1..] == more;
    if Sendable(all) {
      assert forall i :: 0 <= i < |more| ==> more[i] == all[i + 1];
    }
  }

  lemma PackedOn(out: seq<byte>, fields: seq<Field>, i: nat)
    requires i < |fields|
    ensures out + Packed(fields[i..]) == out + [|fields[i]| % 0x100] + fields[i] + Packed(fields[i + 1..])
    ensures |Packed(fields[i..])| >= 1 + |fields[i]|
  {
    assert fields[i..][1..] == fields[i + 1..];
  }

  /** Everything packed but for the count of the whole. */
  lemma Whole(out: seq<byte>, command: byte, fields: seq<Field>)
    requires out + Packed(fields[|fields|..]) == [command, 0] + Packed(fields)
    ensures |out| == 2 + |Packed(fields)|
    ensures Sendable(fields) ==> out[1 := |Packed(fields)|] == Rpc(command, fields)
  {
    assert fields[|fields|..] == [] && out + [] == out;
  }

  /** The device's writer; a command that does not fit is not written. */
  method WriteRpc(command: byte, fields: seq<Field>) returns (out: seq<byte>)
    ensures out == if Sendable(fields) then Rpc(command, fields) else []
  {
    out := [command, 0];
    var i := 0;
    assert fields[0..] == fields;
    while i < |fields|
      invariant 0 <= i <= |fields| && 2 <= |out| <= 255 && out[0] == command && out[1] == 0
      invariant forall k :: 0 <= k < i ==> |fields[k]| <= 251
      invariant out + Packed(fields[i..]) == [command, 0] + Packed(fields)
    {
      PackedOn(out, fields, i);
      if |fields[i]| > 251 || |out| + 1 + |fields[i]| > 255 {
        assert |out + Packed(fields[i..])| == 2 + |Packed(fields)|;
        return [];
      }
      out := out + [|fields[i]| % 0x100];
      out := out + fields[i];
      i := i + 1;
    }
    Whole(out, command, fields);
    out := out[1 := |out| - 2];
  }

  /** The fields of a command body, when it is made of whole fields without zero bytes. */
  function Unpack(body: seq<byte>): Option<seq<Field>>
    decreases |body|
  {
    if body == [] then Some([])
    else
      var n := body[0] as int + 1;
      if n > |body| || 0 in body[1..n] then None
      else Prepend([body[1..n]], Unpack(body[n..]))
  }

  function Prepend(fields: seq<Field>, more: Option<seq<Field>>): Option<seq<Field>> {
    if more.Some? then Some(fields + more.value) else None
  }

  function Parsed(data: seq<byte>): Option<seq<Field>> {
    if |data| < 2 || data[1] as int + 2 != |data| then None else Unpack(data[2..])
  }

  /** Reads a command; `ok` says that all of it was well formed. */
  method ParseRpc(data: seq<byte>) returns (ok: bool, command: byte, fields: seq<Field>)
    ensures ok <==> Parsed(data).Some?
    ensures ok ==> command == data[0] && Parsed(data) == Some(fields)
  {
    command, fields := 0, [];
    if |data| < 2 || data[1] as int + 2 != |data| {
      return false, command, fields;
    }
    command := data[0];
    var at := 2;
    PrependNothing(Unpack(data[2..]));
    while at < |data|
      invariant 2 <= at <= |data|
      invariant Unpack(data[2..]) == Prepend(fields, Unpack(data[at..]))
    {
      var size := data[at] as int;
      FirstField(data, at);
      at := at + 1;
      if at + size > |data| {
        return false, command, fields;
      }
      ghost var before := fields;
      fields := fields + [data[at..at + size]];
      if 0 in data[at..at + size] {
        return false, command, fields;
      }
      at := at + size;
      PrependTwice(before, [data[at - size..at]], Unpack(data[at..]));
    }
    PrependEnd(fields, data[at..]);
    ok := true;
  }

  lemma PrependEnd(fields: seq<Field>, rest: seq<byte>)
    requires rest == []
    ensures Prepend(fields, Unpack(rest)) == Some(fields)
  {
    assert fields + [] == fields;
  }

  /** The fields from a field of n bytes at `at` on. */
  function UnpackAt(data: seq<byte>, at: nat, n: nat): Option<seq<Field>> {
    if at + n > |data| || 0 in data[at..at + n] then None else Prepend([data[at..at + n]], Unpack(data[at + n..]))
  }

  lemma FirstField(data: seq<byte>, at: nat)
    requires at < |data|
    ensures Unpack(data[at..]) == UnpackAt(data, at + 1, data[at] as int)
  {
    var n := data[at] as int;
    var body := data[at..];
    if at + 1 + n <= |data| {
      assert body[1..n + 1] == data[at + 1..at + 1 + n] && body[n + 1..] == data[at + 1 + n..];
    }
  }

  lemma PrependNothing(o: Option<seq<Field>>)
    ensures Prepend([], o) == o
  {
    if o.Some? { assert [] + o.value == o.value; }
  }

  lemma PrependTwice(a: seq<Field>, b: seq<Field>, o: Option<seq<Field>>)
    ensures Prepend(a, Prepend(b, o)) == Prepend(a + b, o)
  {
    if o.Some? { assert a + (b + o.value) == a + b + o.value; }
  }

  ghost predicate ZeroFree(fields: seq<Field>) { forall i :: 0 <= i < |fields| ==> 0 !in fields[i] }

  lemma {:induction false} UnpackPacked(fields: seq<Field>)
    requires ZeroFree(fields) && forall i :: 0 <= i < |fields| ==> |fields[i]| <= 255
    ensures Unpack(Packed(fields)) == Some(fields)
    decreases |fields|
  {
    if fields != [] {
      var f, more := fields[0], fields[1..];
      UnpackPacked(more);
      FieldSplit(f, Packed(more));
      assert fields == [f] + more;
    }
  }

  lemma FieldSplit(f: Field, more: seq<byte>)
    requires |f| <= 255
    ensures var body := Counted(f) + more; body[0] as int == |f| && body[1..|f| + 1] == f && body[|f| + 1..] == more
  {
  }

  lemma PackedFirst(f: Field, fields: seq<Field>)
    ensures Packed([f] + fields) == Counted(f) + Packed(fields)
  {
    assert ([f] + fields)[1..] == fields;
  }

  lemma CountedFirst(body: seq<byte>, n: nat)
    requires 1 <= n <= |body| && body[0] as int + 1 == n
    ensures Counted(body[1..n]) + body[n..] == body
  {
    assert |body[1..n]| % 0x100 == body[0] as int;
  }

  lemma {:induction false} PackedUnpack(body: seq<byte>)
    requires Unpack(body).Some?
    ensures Packed(Unpack(body).value) == body && ZeroFree(Unpack(body).value)
    decreases |body|
  {
    if body != [] {
      var n := body[0] as int + 1;
      PackedUnpack(body[n..]);
      PackedFirst(body[1..n], Unpack(body[n..]).value);
      CountedFirst(body, n);
    }
  }

  /** Reading undoes writing, for fields without zero bytes. */
  lemma ParseWritten(command: byte, fields: seq<Field>)
    requires Sendable(fields) && ZeroFree(fields)
    ensures Rpc(command, fields)[0] == command && Parsed(Rpc(command, fields)) == Some(fields)
  {
    UnpackPacked(fields);
    assert Rpc(command, fields)[2..] == Packed(fields);
  }

  /**
   A command that reads well was written by the writer exactly when the writer would have
   sent its fields: the reader also takes fields of 252 bytes and more, which no writer sends.
   */
  lemma WriteParsed(data: seq<byte>)
    requires Parsed(data).Some?
    ensures Sendable(Parsed(data).value) ==> Rpc(data[0], Parsed(data).value) == data
    ensures Sendable(Parsed(data).value) <==> |data| <= 255 && forall i :: 0 <= i < |Parsed(data).value| ==> |Parsed(data).value[i]| <= 251
  {
    PackedUnpack(data[2..]);
    assert data == [data[0], data[1]] + data[2..];
  }

  /** The host's writer: one whole frame, or nothing when it raises. */
  method HostEncode(extension: bool, command: byte, fields: seq<Field>) returns (packet: Option<seq<byte>>)
    ensures packet.Some? <==> Sendable(fields) && ZeroFree(fields)
    ensures packet.Some? ==> packet.value == Encoded(Frame(extension, RPC_KIND, Rpc(command, fields)))
  {
    var data: seq<byte> := [command, 0];
    var i := 0;
    assert fields[0..] == fields;
    while i < |fields|
      invariant 0 <= i <= |fields| && 2 <= |data| && data[0] == command && data[1] == 0
      invariant forall k :: 0 <= k < i ==> |fields[k]| <= 251 && 0 !in fields[k]
      invariant data + Packed(fields[i..]) == [command, 0] + Packed(fields)
    {
      PackedOn(data, fields, i);
      if 0 in fields[i] || |fields[i]| > 251 {
        return None;
      }
      data := data + [|fields[i]| % 0x100];
      data := data + fields[i];
      i := i + 1;
    }
    Whole(data, command, fields);
    if |data| > 255 {
      return None;
    }
    data := data[1 := |data| - 2];
    var whole := WriteFrame(Frame(extension, RPC_KIND, data));
    packet := Some(whole);
  }

  /** Every sequence of commands either side can send. */
  datatype Command = Command(extension: bool, command: byte, fields: seq<Field>)

  ghost predicate CanSend(c: Command) { Sendable(c.fields) && ZeroFree(c.fields) }

  ghost predicate CanSendAll(commands: seq<Command>) {
    forall i :: 0 <= i < |commands| ==> CanSend(commands[i])
  }

  function Carrier(c: Command): Frame
    requires Sendable(c.fields)
  {
    Frame(c.extension, RPC_KIND, Rpc(c.command, c.fields))
  }

  ghost function Carriers(commands: seq<Command>): seq<Burst>
    requires CanSendAll(commands)
  {
    seq(|commands|, i requires 0 <= i < |commands| => Burst([], Carrier(commands[i])))
  }

  lemma {:induction false} FramesAt(bursts: seq<Burst>, i: nat)
    requires i < |bursts|
    ensures |Frames(bursts)| == |bursts| && Frames(bursts)[i] == bursts[i].frame
    decreases |bursts|
  {
    if |bursts| > 1 { FramesAt(bursts[1..], if i == 0 then 0 else i - 1); }
  }

  lemma CarriersClear(commands: seq<Command>)
    requires CanSendAll(commands)
    ensures forall b :: b in Carriers(commands) ==> |b.frame.data| <= 255 && Clear(b)
  {
    forall b | b in Carriers(commands) ensures |b.frame.data| <= 255 && Clear(b) {
      NoNoiseIsClear(b.frame);
    }
  }

  /** The commands written back to back. */
  ghost function Line(commands: seq<Command>): seq<byte>
    requires CanSendAll(commands)
  {
    CarriersClear(commands);
    Stream(Carriers(commands))
  }

  ghost predicate Carries(f: Frame, c: Command) {
    f.extension == c.extension && f.kind == RPC_KIND && |f.data| >= 2 && f.data[0] == c.command && Parsed(f.data) == Some(c.fields)
  }

  /**
   The line from end to end: commands written back to back arrive, in order and once, as
   frames that read as the commands sent.
   */
  lemma CommandsArrive(commands: seq<Command>)
    requires CanSendAll(commands)
    ensures Hear([], Line(commands)).buffer == []
    ensures var frames := Hear([], Line(commands)).frames;
      |frames| == |commands| && forall i :: 0 <= i < |commands| ==> Carries(frames[i], commands[i])
  {
    CarriersClear(commands);
    var bursts := Carriers(commands);
    StreamHeard(bursts);
    if bursts != [] { FramesAt(bursts, 0); }
    forall i | 0 <= i < |commands| ensures Carries(Frames(bursts)[i], commands[i]) {
      FramesAt(bursts, i);
      ParseWritten(commands[i].command, commands[i].fields);
    }
  }
}
