/** Rewriting a WebAssembly module section by section: LEB128 sizes, the section stream, dropping the
    meta section and replacing the spec section, and the code bytes that must not change. */
module Wasm {

  import opened Numbers

  type byte = x: int | 0 <= x < 256

  /** The ASCII names `contractspecv0` and `contractmetav0`. */
  const SPEC: seq<byte> := [99, 111, 110, 116, 114, 97, 99, 116, 115, 112, 101, 99, 118, 48]
  const META: seq<byte> := [99, 111, 110, 116, 114, 97, 99, 116, 109, 101, 116, 97, 118, 48]

  /** A slice that stops at the end of the data. */
  function Slice(data: seq<byte>, from: nat, to: nat): (r: seq<byte>)
    ensures from <= to <= |data| ==> |r| == to - from
    ensures from <= |data| <= to ==> |r| == |data| - from
    decreases |data| - from
  {
    if from >= to || from >= |data| then [] else [data[from]] + Slice(data, from + 1, to)
  }

  lemma {:induction false} SliceJoin(data: seq<byte>, a: nat, b: nat, c: nat)
    requires a <= b <= c && b <= |data|
    ensures Slice(data, a, c) == Slice(data, a, b) + Slice(data, b, c)
    decreases b - a
  {
    if a < b { SliceJoin(data, a + 1, b, c); }
  }

  lemma {:induction false} SliceIs(data: seq<byte>, a: nat, b: nat)
    requires a <= b <= |data|
    ensures Slice(data, a, b) == data[a..b]
    decreases b - a
  {
    if a < b { SliceIs(data, a + 1, b); }
  }

  /** Two concatenations whose parts are no shorter on one side. */
  lemma SplitEqual(a: seq<byte>, b: seq<byte>, c: seq<byte>, d: seq<byte>)
    requires |a| >= |c| && |b| >= |d|
    ensures a + b == c + d <==> a == c && b == d
  {
    if a + b == c + d {
      assert |a| == |c|;
      assert a == (a + b)[..|a|] && c == (c + d)[..|c|];
      assert b == (a + b)[|a|..] && d == (c + d)[|c|..];
    }
  }

  // ----- LEB128

  datatype Read = Read(value: nat, next: nat)

  /** The unsigned number at `i` and the offset after it; none when the data ends inside it. */
  function ReadLeb(data: seq<byte>, i: nat): (r: Option<Read>)
    ensures r.Some? ==> i < r.value.next <= |data|
    decreases |data| - i
  {
    if i >= |data| then None
    else if data[i] < 128 then Some(Read(data[i], i + 1))
    else
      var rest :- ReadLeb(data, i + 1);
      Some(Read(data[i] - 128 + 128 * rest.value, rest.next))
  }

  function WriteLeb(value: nat): (r: seq<byte>)
    ensures |r| >= 1
  {
    if value < 128 then [value] else [value % 128 + 128] + WriteLeb(value / 128)
  }

  /** `digit` counted `scale` times. */
  function Plus(value: nat, scale: nat, digit: nat): nat {
    value + scale * digit
  }

  /** `value` collected so far and the digits still to come, which count `scale` each. */
  function Combine(value: nat, scale: nat, rest: Option<Read>): Option<Read> {
    if rest.None? then None else Some(Read(Plus(value, scale, rest.value.value), rest.value.next))
  }

  lemma CombineStep(value: nat, scale: nat, data: seq<byte>, i: nat)
    requires i < |data|
    ensures Combine(value, scale, ReadLeb(data, i)) ==
      if data[i] < 128 then Some(Read(Plus(value, scale, data[i]), i + 1))
      else Combine(Plus(value, scale, data[i] % 128), scale * 128, ReadLeb(data, i + 1))
  {
    if data[i] >= 128 && ReadLeb(data, i + 1).Some? {
      Distribute(value, scale, data[i] - 128, ReadLeb(data, i + 1).value.value);
    }
  }

  lemma Distribute(value: nat, scale: nat, low: nat, rest: nat)
    ensures Plus(value, scale, low + 128 * rest) == Plus(Plus(value, scale, low), scale * 128, rest)
  {
    assert scale * (low + 128 * rest) == scale * low + (scale * 128) * rest;
  }

  lemma CombineStart(rest: Option<Read>)
    ensures Combine(0, 1, rest) == rest
  {
  }

  method ReadLeb128(data: seq<byte>, start: nat) returns (r: Option<Read>)
    ensures r == ReadLeb(data, start)
  {
    var value: nat, scale: nat, i := 0, 1, start;
    CombineStart(ReadLeb(data, start));
    while i < |data|
      invariant ReadLeb(data, start) == Combine(value, scale, ReadLeb(data, i))
      decreases |data| - i
    {
      CombineStep(value, scale, data, i);
      value := Plus(value, scale, data[i] % 128);
      if data[i] < 128 {
        return Some(Read(value, i + 1));
      }
      scale := scale * 128;
      i := i + 1;
    }
    return None;
  }

  method WriteLeb128(start: nat) returns (out: seq<byte>)
    ensures out == WriteLeb(start)
  {
    out := [];
    var value := start;
    while value >= 128
      invariant value >= 0 && out + WriteLeb(value) == WriteLeb(start)
    {
      out := out + [value % 128 + 128];
      value := value / 128;
    }
    out := out + [value];
  }

  lemma {:induction false} ReadWritten(data: seq<byte>, i: nat, value: nat)
    requires i + |WriteLeb(value)| <= |data| && Slice(data, i, i + |WriteLeb(value)|) == WriteLeb(value)
    ensures ReadLeb(data, i).Some? && ReadLeb(data, i).value == Read(value, i + |WriteLeb(value)|)
    decreases value
  {
    var written := Slice(data, i, i + |WriteLeb(value)|);
    assert written[0] == data[i];
    if value >= 128 {
      assert written[1..] == WriteLeb(value / 128);
      assert value == value % 128 + 128 * (value / 128);
      ReadWritten(data, i + 1, value / 128);
    }
  }

  /** Reading undoes writing, at any offset and whatever follows. */
  lemma ReadUndoesWrite(before: seq<byte>, value: nat, after: seq<byte>)
    ensures ReadLeb(before + WriteLeb(value) + after, |before|) == Some(Read(value, |before| + |WriteLeb(value)|))
  {
    var data := before + WriteLeb(value) + after;
    SliceIs(data, |before|, |before| + |WriteLeb(value)|);
    ReadWritten(data, |before|, value);
  }

  lemma Digits(low: nat, rest: nat)
    requires low < 128
    ensures (low + 128 * rest) / 128 == rest && (low + 128 * rest) % 128 == low
  {
  }

  /** An encoding is never shorter than the written one, and equals it when it is as short. */
  lemma {:induction false} WriteIsShortest(data: seq<byte>, i: nat)
    requires ReadLeb(data, i).Some?
    ensures var r := ReadLeb(data, i).value;
      && |WriteLeb(r.value)| <= r.next - i
      && (|WriteLeb(r.value)| == r.next - i ==> WriteLeb(r.value) == Slice(data, i, r.next))
    decreases |data| - i
  {
    if data[i] >= 128 {
      WriteIsShortest(data, i + 1);
      Digits(data[i] - 128, ReadLeb(data, i + 1).value.value);
    }
  }

  lemma {:induction false} LongerForLarger(a: nat, b: nat)
    requires a <= b
    ensures |WriteLeb(a)| <= |WriteLeb(b)|
    decreases b
  {
    if a >= 128 { LongerForLarger(a / 128, b / 128); }
  }

  lemma WriteIsInjective(a: nat, b: nat)
    requires WriteLeb(a) == WriteLeb(b)
    ensures a == b
  {
    ReadUndoesWrite([], a, []);
    ReadUndoesWrite([], b, []);
  }

  // ----- the section stream

  /** A section as it lies in the module: the bytes of its size, the size they say, and the body that
      is there, which is shorter than the size when the module ends inside it. */
  datatype Chunk = Chunk(id: byte, leb: seq<byte>, size: nat, body: seq<byte>)

  datatype Section = Section(id: byte, body: seq<byte>) {
    /** The name of a custom section; none when its length runs off the body. */
    function Name(): Option<seq<byte>> {
      var length :- ReadLeb(body, 0);
      Some(Slice(body, length.next, length.next + length.value))
    }

    predicate Named(name: seq<byte>) {
      id == 0 && Name() == Some(name)
    }

    predicate Readable() {
      id == 0 ==> Name().Some?
    }
  }

  /** What was collected so far followed by what is still to come. */
  function Then<T>(done: seq<T>, rest: Option<seq<T>>): Option<seq<T>> {
    if rest.None? then None else Some(done + rest.value)
  }

  lemma ThenLaws<T>(done: seq<T>, more: seq<T>, rest: Option<seq<T>>)
    ensures Then([], rest) == rest
    ensures Then(done, Some([])) == Some(done)
    ensures Then(done, Then(more, rest)) == Then(done + more, rest)
  {
    assert done + [] == done;
    if rest.Some? {
      assert [] + rest.value == rest.value;
      assert done + (more + rest.value) == done + more + rest.value;
    }
  }

  function ChunkAt(wasm: seq<byte>, i: nat, size: Read): Chunk
    requires i < size.next <= |wasm|
  {
    Chunk(wasm[i], Slice(wasm, i + 1, size.next), size.value, Slice(wasm, size.next, size.next + size.value))
  }

  function Chunks(wasm: seq<byte>, i: nat): Option<seq<Chunk>>
    decreases |wasm| - i
  {
    if i >= |wasm| then Some([])
    else
      var size :- ReadLeb(wasm, i + 1);
      Then([ChunkAt(wasm, i, size)], Chunks(wasm, size.next + size.value))
  }

  function Sections(chunks: seq<Chunk>): (r: seq<Section>)
    ensures |r| == |chunks|
  {
    if chunks == [] then [] else [Section(chunks[0].id, chunks[0].body)] + Sections(chunks[1..])
  }

  predicate AllReadable(sections: seq<Section>) {
    sections != [] ==> sections[0].Readable() && AllReadable(sections[1..])
  }

  /** The sections from `i` on; none where the program raises. */
  function ParseFrom(wasm: seq<byte>, i: nat): Option<seq<Section>>
    decreases |wasm| - i
  {
    if i >= |wasm| then Some([])
    else
      var size :- ReadLeb(wasm, i + 1);
      var section := Section(wasm[i], Slice(wasm, size.next, size.next + size.value));
      if section.Readable() then Then([section], ParseFrom(wasm, size.next + size.value)) else None
  }

  /** The sections after the eight-byte header. */
  function Parse(wasm: seq<byte>): Option<seq<Section>> {
    ParseFrom(wasm, 8)
  }

  function ReadableSections(chunks: Option<seq<Chunk>>): Option<seq<Section>> {
    if chunks.Some? && AllReadable(Sections(chunks.value)) then Some(Sections(chunks.value)) else None
  }

  lemma {:induction false} ParseFromIs(wasm: seq<byte>, i: nat)
    ensures ParseFrom(wasm, i) == ReadableSections(Chunks(wasm, i))
    decreases |wasm| - i
  {
    if i < |wasm| && ReadLeb(wasm, i + 1).Some? {
      var size := ReadLeb(wasm, i + 1).value;
      ParseFromIs(wasm, size.next + size.value);
      ReadableThen(ChunkAt(wasm, i, size), Chunks(wasm, size.next + size.value));
    }
  }

  lemma ReadableThen(c: Chunk, rest: Option<seq<Chunk>>)
    ensures ReadableSections(Then([c], rest)) ==
      if Section(c.id, c.body).Readable() then Then([Section(c.id, c.body)], ReadableSections(rest)) else None
  {
    if rest.Some? {
      assert ([c] + rest.value)[1..] == rest.value;
      assert ([Section(c.id, c.body)] + Sections(rest.value))[1..] == Sections(rest.value);
    }
  }

  method ParseSections(wasm: seq<byte>) returns (r: Option<seq<Section>>)
    ensures r == Parse(wasm)
  {
    var i, sections := 8, [];
    ThenLaws([], [], ParseFrom(wasm, 8));
    while i < |wasm|
      invariant 8 <= i && ParseFrom(wasm, 8) == Then(sections, ParseFrom(wasm, i))
      decreases |wasm| - i
    {
      var size := ReadLeb128(wasm, i + 1);
      if size.None? {
        return None;
      }
      var end := size.value.next + size.value.value;
      var section := Section(wasm[i], Slice(wasm, size.value.next, end));
      if section.id == 0 && section.Name().None? {
        return None;
      }
      ThenLaws(sections, [section], ParseFrom(wasm, end));
      sections, i := sections + [section], end;
    }
    ThenLaws(sections, [], None);
    return Some(sections);
  }

  // ----- printing

  function PrintOne(s: Section): seq<byte> {
    [s.id] + WriteLeb(|s.body|) + s.body
  }

  function Print(sections: seq<Section>): seq<byte> {
    if sections == [] then [] else PrintOne(sections[0]) + Print(sections[1..])
  }

  /** The chunk that a printed section lies as. */
  function Printed(s: Section): Chunk {
    Chunk(s.id, WriteLeb(|s.body|), |s.body|, s.body)
  }

  lemma PrintedChunk(data: seq<byte>, i: nat, s: Section, tail: seq<byte>)
    requires i <= |data| && Slice(data, i, |data|) == PrintOne(s) + tail
    ensures i < |data| && ReadLeb(data, i + 1).Some?
    ensures var size := ReadLeb(data, i + 1).value;
      && size.next + size.value <= |data|
      && ChunkAt(data, i, size) == Printed(s)
      && Slice(data, size.next + size.value, |data|) == tail
  {
    var leb := WriteLeb(|s.body|);
    var next, end := i + 1 + |leb|, i + 1 + |leb| + |s.body|;
    SliceJoin(data, i, end, |data|);
    SplitEqual(Slice(data, i, end), Slice(data, end, |data|), PrintOne(s), tail);
    PrintedParts(data, i, next, end, s, leb);
    ReadWritten(data, i + 1, |s.body|);
  }

  lemma PrintedParts(data: seq<byte>, i: nat, next: nat, end: nat, s: Section, leb: seq<byte>)
    requires next == i + 1 + |leb| && end == next + |s.body| <= |data| && Slice(data, i, end) == [s.id] + leb + s.body
    ensures data[i] == s.id && Slice(data, i + 1, next) == leb && Slice(data, next, end) == s.body
  {
    SliceJoin(data, i, next, end);
    SplitEqual(Slice(data, i, next), Slice(data, next, end), [s.id] + leb, s.body);
    SliceJoin(data, i, i + 1, next);
    SplitEqual(Slice(data, i, i + 1), Slice(data, i + 1, next), [s.id], leb);
    assert Slice(data, i, i + 1)[0] == data[i];
  }

  /** Parsing what was printed gives the sections back, each with its size in the fewest bytes. */
  lemma {:induction false} ChunksOfPrinted(data: seq<byte>, i: nat, sections: seq<Section>)
    requires i <= |data| && Slice(data, i, |data|) == Print(sections)
    ensures Chunks(data, i).Some? && Sections(Chunks(data, i).value) == sections && Canonical(Chunks(data, i).value)
    decreases |sections|
  {
    if sections != [] {
      PrintedChunk(data, i, sections[0], Print(sections[1..]));
      var size := ReadLeb(data, i + 1).value;
      ChunksOfPrinted(data, size.next + size.value, sections[1..]);
      ChunksStep(ChunkAt(data, i, size), Chunks(data, size.next + size.value).value, Chunks(data, i).value, sections);
    }
  }

  lemma ChunksStep(first: Chunk, rest: seq<Chunk>, all: seq<Chunk>, sections: seq<Section>)
    requires sections != [] && first == Printed(sections[0]) && Sections(rest) == sections[1..] && Canonical(rest)
    requires all == [first] + rest
    ensures Sections(all) == sections && Canonical(all)
  {
    assert all[1..] == rest;
    assert sections == [sections[0]] + sections[1..];
  }

  /** Every non-custom section states the exact size of its body in the fewest bytes. */
  predicate Canonical(chunks: seq<Chunk>) {
    chunks != [] ==> (chunks[0].id != 0 ==> Exact(chunks[0])) && Canonical(chunks[1..])
  }

  predicate Exact(c: Chunk) {
    |c.body| == c.size && |c.leb| == |WriteLeb(c.size)|
  }

  // ----- the edit

  function NewSpec(encoded: seq<byte>): Section {
    Section(0, WriteLeb(|SPEC|) + SPEC + encoded)
  }

  /** The meta section goes, the spec section gets a new body, every other section stays. */
  function Edit(sections: seq<Section>, encoded: seq<byte>): seq<Section> {
    if sections == [] then []
    else
      var rest := Edit(sections[1..], encoded);
      if sections[0].Named(META) then rest
      else if sections[0].Named(SPEC) then [NewSpec(encoded)] + rest
      else [sections[0]] + rest
  }

  predicate HasSpec(sections: seq<Section>) {
    sections != [] && (sections[0].Named(SPEC) || HasSpec(sections[1..]))
  }

  /** The rebuilt module; none where the program raises. */
  function Strip(wasm: seq<byte>, encoded: seq<byte>): Option<seq<byte>> {
    var sections :- Parse(wasm);
    if HasSpec(sections) then Some(Slice(wasm, 0, 8) + Print(Edit(sections, encoded))) else None
  }

  method Rebuild(wasm: seq<byte>, encoded: seq<byte>) returns (r: Option<seq<byte>>)
    ensures r == Strip(wasm, encoded)
  {
    var sections := ParseSections(wasm);
    if sections.None? || !HasSpec(sections.value) {
      return None;
    }
    var rebuilt := Slice(wasm, 0, 8);
    var all := sections.value;
    assert all[0..] == all;
    for i := 0 to |all|
      invariant rebuilt + Print(Edit(all[i..], encoded)) == Slice(wasm, 0, 8) + Print(Edit(all, encoded))
    {
      PrintEdit(all[i..], encoded);
      assert all[i..][1..] == all[i + 1..];
      if !all[i].Named(META) {
        var section := if all[i].Named(SPEC) then NewSpec(encoded) else all[i];
        var size := WriteLeb128(|section.body|);
        ghost var tail := Print(Edit(all[i + 1..], encoded));
        assert rebuilt + (PrintOne(section) + tail) == rebuilt + PrintOne(section) + tail;
        rebuilt := rebuilt + ([section.id] + size + section.body);
      }
    }
    assert Print(Edit(all[|all|..], encoded)) == [] && rebuilt + [] == rebuilt;
    return Some(rebuilt);
  }

  lemma PrintEdit(sections: seq<Section>, encoded: seq<byte>)
    requires sections != []
    ensures var first, rest := sections[0], Print(Edit(sections[1..], encoded));
      Print(Edit(sections, encoded)) ==
        if first.Named(META) then rest
        else if first.Named(SPEC) then PrintOne(NewSpec(encoded)) + rest
        else PrintOne(first) + rest
  {
    if !sections[0].Named(META) {
      assert Edit(sections, encoded)[1..] == Edit(sections[1..], encoded);
    }
  }

  lemma NewSpecIsNamed(encoded: seq<byte>)
    ensures NewSpec(encoded).Named(SPEC) && !NewSpec(encoded).Named(META)
  {
    var body := NewSpec(encoded).body;
    ReadUndoesWrite([], |SPEC|, SPEC + encoded);
    assert body == [] + WriteLeb(|SPEC|) + (SPEC + encoded);
    SliceIs(body, 1, 15);
    assert body[1..15] == SPEC;
    assert SPEC[8] != META[8];
  }

  lemma {:induction false} EditKeeps(sections: seq<Section>, encoded: seq<byte>)
    requires AllReadable(sections)
    ensures AllReadable(Edit(sections, encoded))
    ensures HasSpec(sections) ==> HasSpec(Edit(sections, encoded))
    ensures Edit(Edit(sections, encoded), encoded) == Edit(sections, encoded)
  {
    if sections != [] {
      NewSpecIsNamed(encoded);
      EditKeeps(sections[1..], encoded);
      if !sections[0].Named(META) {
        assert Edit(sections, encoded)[1..] == Edit(sections[1..], encoded);
      }
    }
  }

  lemma RebuiltSlice(wasm: seq<byte>, printed: seq<byte>)
    requires |wasm| >= 8
    ensures var out := Slice(wasm, 0, 8) + printed;
      && |out| >= 8 && Slice(out, 8, |out|) == printed && out[..8] == wasm[..8] == Slice(out, 0, 8) == Slice(wasm, 0, 8)
  {
    var out := Slice(wasm, 0, 8) + printed;
    SliceIs(wasm, 0, 8);
    SliceIs(out, 8, |out|);
    SliceIs(out, 0, 8);
  }

  /** Reparsing the rebuilt module gives the original sections without meta and with only the spec
      body replaced; stripping again changes nothing. */
  lemma StripThenParse(wasm: seq<byte>, encoded: seq<byte>)
    requires Strip(wasm, encoded).Some?
    ensures var out := Strip(wasm, encoded).value;
      && |wasm| >= 8 && |out| >= 8 && out[..8] == wasm[..8]
      && Parse(out).Some? && Parse(out).value == Edit(Parse(wasm).value, encoded)
      && Strip(out, encoded) == Some(out)
  {
    var sections, out := Parse(wasm).value, Strip(wasm, encoded).value;
    ParseFromIs(wasm, 8);
    EditKeeps(sections, encoded);
    RebuiltSlice(wasm, Print(Edit(sections, encoded)));
    ChunksOfPrinted(out, 8, Edit(sections, encoded));
    ParseFromIs(out, 8);
  }

  // ----- the code

  function CodeOf(chunks: seq<Chunk>): seq<byte> {
    if chunks == [] then []
    else (if chunks[0].id != 0 then [chunks[0].id] + chunks[0].leb + chunks[0].body else []) + CodeOf(chunks[1..])
  }

  lemma SliceParts(wasm: seq<byte>, i: nat, size: Read)
    requires i < size.next <= |wasm|
    ensures var c := ChunkAt(wasm, i, size);
      Slice(wasm, i, size.next + size.value) == [c.id] + c.leb + c.body
  {
    SliceJoin(wasm, i, size.next, size.next + size.value);
  }

  /** The bytes of the non-custom sections from `i` on. */
  function CodeFrom(wasm: seq<byte>, i: nat): Option<seq<byte>>
    decreases |wasm| - i
  {
    if i >= |wasm| then Some([])
    else
      var size :- ReadLeb(wasm, i + 1);
      var rest := CodeFrom(wasm, size.next + size.value);
      if wasm[i] != 0 then Then(Slice(wasm, i, size.next + size.value), rest) else rest
  }

  /** The module without its custom sections, byte for byte. */
  function Code(wasm: seq<byte>): Option<seq<byte>> {
    Then(Slice(wasm, 0, 8), CodeFrom(wasm, 8))
  }

  function CodeOfAll(chunks: Option<seq<Chunk>>): Option<seq<byte>> {
    if chunks.Some? then Some(CodeOf(chunks.value)) else None
  }

  lemma {:induction false} CodeFromIs(wasm: seq<byte>, i: nat)
    ensures CodeFrom(wasm, i) == CodeOfAll(Chunks(wasm, i))
    decreases |wasm| - i
  {
    if i < |wasm| && ReadLeb(wasm, i + 1).Some? {
      var size := ReadLeb(wasm, i + 1).value;
      CodeFromIs(wasm, size.next + size.value);
      SliceParts(wasm, i, size);
      CodeThen(ChunkAt(wasm, i, size), Chunks(wasm, size.next + size.value));
    }
  }

  lemma CodeThen(c: Chunk, rest: Option<seq<Chunk>>)
    ensures CodeOfAll(Then([c], rest)) == if c.id != 0 then Then([c.id] + c.leb + c.body, CodeOfAll(rest)) else CodeOfAll(rest)
  {
    if rest.Some? {
      assert ([c] + rest.value)[1..] == rest.value;
      assert [] + CodeOf(rest.value) == CodeOf(rest.value);
    }
  }

  method CodeBytes(wasm: seq<byte>) returns (r: Option<seq<byte>>)
    ensures r == Code(wasm)
  {
    var out, pos := Slice(wasm, 0, 8), 8;
    while pos < |wasm|
      invariant 8 <= pos && Code(wasm) == Then(out, CodeFrom(wasm, pos))
      decreases |wasm| - pos
    {
      var start := pos;
      var size := ReadLeb128(wasm, pos + 1);
      if size.None? {
        return None;
      }
      pos := size.value.next + size.value.value;
      if wasm[start] != 0 {
        ThenLaws(out, Slice(wasm, start, pos), CodeFrom(wasm, pos));
        out := out + Slice(wasm, start, pos);
      }
    }
    ThenLaws(out, [], None);
    return Some(out);
  }

  /** The size bytes say `size`: they are no shorter than the written form, and equal it when as short. */
  predicate Faithful(c: Chunk) {
    && |c.body| <= c.size && |WriteLeb(c.size)| <= |c.leb|
    && (|WriteLeb(c.size)| == |c.leb| ==> WriteLeb(c.size) == c.leb)
  }

  predicate AllFaithful(chunks: seq<Chunk>) {
    chunks != [] ==> Faithful(chunks[0]) && AllFaithful(chunks[1..])
  }

  lemma {:induction false} ChunksFaithful(wasm: seq<byte>, i: nat)
    requires Chunks(wasm, i).Some?
    ensures AllFaithful(Chunks(wasm, i).value)
    decreases |wasm| - i
  {
    if i < |wasm| {
      var size := ReadLeb(wasm, i + 1).value;
      WriteIsShortest(wasm, i + 1);
      ChunksFaithful(wasm, size.next + size.value);
      FaithfulStep(ChunkAt(wasm, i, size), Chunks(wasm, size.next + size.value).value);
    }
  }

  lemma FaithfulStep(first: Chunk, rest: seq<Chunk>)
    requires Faithful(first) && AllFaithful(rest)
    ensures AllFaithful([first] + rest)
  {
    assert ([first] + rest)[1..] == rest;
  }

  function Native(sections: seq<Section>): seq<Section> {
    if sections == [] then []
    else if sections[0].id != 0 then [sections[0]] + Native(sections[1..])
    else Native(sections[1..])
  }

  /** The raw bytes of a section are those printed exactly when its size is exact and minimal. */
  lemma RawAgainstPrinted(c: Chunk, raw: seq<byte>, printed: seq<byte>)
    requires Faithful(c) && raw == [c.id] + c.leb + c.body && printed == [c.id] + WriteLeb(|c.body|) + c.body
    ensures |raw| >= |printed| && (raw == printed <==> Exact(c))
  {
    var size := WriteLeb(|c.body|);
    LongerForLarger(|c.body|, c.size);
    SplitEqual([c.id] + c.leb, c.body, [c.id] + size, c.body);
    SplitEqual([c.id], c.leb, [c.id], size);
    if c.leb == size { WriteIsInjective(|c.body|, c.size); }
  }

  /** Raw code against printed native sections: never shorter, and equal exactly when canonical. */
  lemma {:induction false} CodeAgrees(chunks: seq<Chunk>)
    requires AllFaithful(chunks)
    ensures |CodeOf(chunks)| >= |Print(Native(Sections(chunks)))|
    ensures CodeOf(chunks) == Print(Native(Sections(chunks))) <==> Canonical(chunks)
  {
    if chunks != [] {
      var c, rest := chunks[0], chunks[1..];
      var s, native := Section(c.id, c.body), Native(Sections(rest));
      CodeAgrees(rest);
      assert Sections(chunks)[1..] == Sections(rest);
      if c.id != 0 {
        assert ([s] + native)[1..] == native;
        RawAgainstPrinted(c, [c.id] + c.leb + c.body, PrintOne(s));
        SplitEqual([c.id] + c.leb + c.body, CodeOf(rest), PrintOne(s), Print(native));
      } else {
        assert [] + CodeOf(rest) == CodeOf(rest);
      }
    }
  }

  lemma {:induction false} NativeUnedited(sections: seq<Section>, encoded: seq<byte>)
    ensures Native(Edit(sections, encoded)) == Native(sections)
  {
    if sections != [] {
      NativeUnedited(sections[1..], encoded);
      var rest := Edit(sections[1..], encoded);
      assert ([NewSpec(encoded)] + rest)[1..] == rest && ([sections[0]] + rest)[1..] == rest;
    }
  }

  /** Stripping leaves the code byte for byte the same exactly when every non-custom section of the
      original states its exact size in the fewest bytes. */
  lemma StripKeepsCode(wasm: seq<byte>, encoded: seq<byte>)
    requires Strip(wasm, encoded).Some?
    ensures Code(wasm).Some? && Code(Strip(wasm, encoded).value).Some?
    ensures Chunks(wasm, 8).Some?
    ensures Code(Strip(wasm, encoded).value).value == Code(wasm).value <==> Canonical(Chunks(wasm, 8).value)
  {
    var sections, out := Parse(wasm).value, Strip(wasm, encoded).value;
    StripThenParse(wasm, encoded);
    RebuiltSlice(wasm, Print(Edit(sections, encoded)));
    ChunksOfPrinted(out, 8, Edit(sections, encoded));
    NativeUnedited(sections, encoded);
    ParseFromIs(wasm, 8);
    CodeFromIs(wasm, 8);
    CodeFromIs(out, 8);
    ChunksFaithful(wasm, 8);
    ChunksFaithful(out, 8);
    CodeAgrees(Chunks(wasm, 8).value);
    CodeAgrees(Chunks(out, 8).value);
    SplitEqual(Slice(wasm, 0, 8), CodeOf(Chunks(wasm, 8).value), Slice(out, 0, 8), CodeOf(Chunks(out, 8).value));
  }

  /** A one-byte type section whose size is padded to two bytes, before any spec section. */
  function Padded(header: seq<byte>, encoded: seq<byte>): seq<byte> {
    header + [1, 129, 0, 7] + PrintOne(NewSpec(encoded))
  }

  lemma PaddedChunks(header: seq<byte>, encoded: seq<byte>)
    requires |header| == 8
    ensures Chunks(Padded(header, encoded), 8) == Some([Chunk(1, [129, 0], 1, [7]), Printed(NewSpec(encoded))])
  {
    TwoChunks(Padded(header, encoded), header, NewSpec(encoded));
  }

  lemma TwoChunks(wasm: seq<byte>, header: seq<byte>, s: Section)
    requires |header| == 8 && wasm == header + [1, 129, 0, 7] + PrintOne(s)
    ensures Chunks(wasm, 8) == Some([Chunk(1, [129, 0], 1, [7]), Printed(s)])
  {
    PaddedBytes(header, PrintOne(s), wasm);
    LastChunk(wasm, 12, s);
    FirstChunk(wasm);
    assert [Chunk(1, [129, 0], 1, [7])] + [Printed(s)] == [Chunk(1, [129, 0], 1, [7]), Printed(s)];
  }

  lemma PaddedBytes(header: seq<byte>, tail: seq<byte>, wasm: seq<byte>)
    requires |header| == 8 && wasm == header + [1, 129, 0, 7] + tail
    ensures |wasm| >= 12 && wasm[8] == 1 && wasm[9] == 129 && wasm[10] == 0 && wasm[11] == 7
    ensures Slice(wasm, 12, |wasm|) == tail
  {
    SliceIs(wasm, 12, |wasm|);
  }

  lemma FirstChunk(wasm: seq<byte>)
    requires |wasm| >= 12 && wasm[8] == 1 && wasm[9] == 129 && wasm[10] == 0 && wasm[11] == 7
    ensures Chunks(wasm, 8) == Then([Chunk(1, [129, 0], 1, [7])], Chunks(wasm, 12))
  {
    assert ReadLeb(wasm, 10) == Some(Read(0, 11));
    assert ReadLeb(wasm, 9) == Some(Read(1, 11));
    SliceIs(wasm, 9, 11);
    SliceIs(wasm, 11, 12);
    assert wasm[9..11] == [129, 0] && wasm[11..12] == [7];
  }

  lemma LastChunk(wasm: seq<byte>, i: nat, s: Section)
    requires i <= |wasm| && Slice(wasm, i, |wasm|) == PrintOne(s)
    ensures Chunks(wasm, i) == Some([Printed(s)])
  {
    assert PrintOne(s) + [] == PrintOne(s);
    PrintedChunk(wasm, i, s, []);
    var end := ReadLeb(wasm, i + 1).value.next + ReadLeb(wasm, i + 1).value.value;
    SliceEnds(wasm, end);
    assert [Printed(s)] + [] == [Printed(s)];
  }

  lemma SliceEnds(data: seq<byte>, i: nat)
    requires i <= |data| && Slice(data, i, |data|) == []
    ensures i == |data|
  {
    SliceIs(data, i, |data|);
  }

  /** Modules whose code stripping changes: it prints the padded size in one byte. */
  lemma PaddedSizeChangesCode(header: seq<byte>, encoded: seq<byte>)
    requires |header| == 8
    ensures var wasm := Padded(header, encoded);
      && Strip(wasm, encoded).Some? && Code(wasm).Some? && Code(Strip(wasm, encoded).value).Some?
      && Code(Strip(wasm, encoded).value).value != Code(wasm).value
  {
    var wasm := Padded(header, encoded);
    PaddedChunks(header, encoded);
    NewSpecIsNamed(encoded);
    var chunks := Chunks(wasm, 8).value;
    var spec := NewSpec(encoded);
    assert chunks[1..] == [Printed(spec)] && chunks[1..][1..] == [];
    assert Sections(chunks) == [Section(1, [7]), spec];
    assert Sections(chunks)[1..] == [spec] && [spec][1..] == [];
    assert HasSpec(Sections(chunks)) && AllReadable(Sections(chunks));
    ParseFromIs(wasm, 8);
    StripKeepsCode(wasm, encoded);
    assert !Exact(chunks[0]);
  }
}
