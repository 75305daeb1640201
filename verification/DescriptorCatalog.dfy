/** The vendor's sensor-configuration catalog: parsing it, and finding a captured payload in it. */
module DescriptorCatalog {
  import opened Bytes

  const DESCRIPTOR_SIZE: nat := 0x50
  const LENGTH_OFFSET: nat := 0x44
  const PAYLOAD_POINTER_OFFSET: nat := 0x48
  const POINTER_SIZE: nat := 8

  datatype Descriptor<D> = Descriptor(index: nat, rva: nat, selectors: seq<u32>, payloadLength: nat, payloadRva: nat,
                                      digest: D, header: seq<byte>, aligned: bool)

  /** The mapped file: `read_rva` either returns as many bytes as asked for or fails. */
  datatype Reader = Reader(imageBase: nat, read: (nat, nat) -> Option<seq<byte>>) {
    ghost predicate Sound() {
      forall rva: nat, n: nat :: read(rva, n).Some? ==> |read(rva, n).value| == n
    }
  }

  // ---------------------------------------------------------------- one descriptor

  function SelectorsFrom(record: seq<byte>, offset: nat): seq<u32>
    requires |record| == DESCRIPTOR_SIZE
    decreases DESCRIPTOR_SIZE - offset
  {
    if offset + 4 > LENGTH_OFFSET then []
    else [Le32(record[offset..])] + SelectorsFrom(record, offset + 4)
  }

  /** `parse_descriptor`; None for any of its exceptions. */
  function ParseDescriptor<D>(index: nat, rva: nat, record: seq<byte>, reader: Reader, hash: seq<byte> -> D)
    : Option<Descriptor<D>>
  {
    if |record| != DESCRIPTOR_SIZE || (exists i :: 0 <= i < 0x10 && record[i] != 0) then None
    else
      var length: nat := Le32(record[LENGTH_OFFSET..]);
      var pointer := FromBytesLittle(record[PAYLOAD_POINTER_OFFSET..]);
      if pointer < reader.imageBase then None
      else
        var payload := reader.read(pointer - reader.imageBase, length);
        if payload.None? || length < 4 || |payload.value| < 4 then None
        else Some(Descriptor(index, rva, SelectorsFrom(record, 0x10), length, pointer - reader.imageBase,
                             hash(payload.value), payload.value[..4], (length - 4) % 16 == 0))
  }

  /** The descriptor's digest is that of the bytes its reader finds at its place. */
  predicate Stored<D(==)>(d: Descriptor<D>, reader: Reader, hash: seq<byte> -> D) {
    var payload := reader.read(d.payloadRva, d.payloadLength);
    payload.Some? && d.digest == hash(payload.value)
  }

  lemma ParsedIsStored<D>(index: nat, rva: nat, record: seq<byte>, reader: Reader, hash: seq<byte> -> D)
    ensures var d := ParseDescriptor(index, rva, record, reader, hash);
      d.Some? ==> Stored(d.value, reader, hash) && d.value.index == index
  {
    hide SelectorsFrom, Bytes.FromBytesLittle;
  }

  // ---------------------------------------------------------------- the catalog

  /** The i-th pointer of the table; None when it cannot be read. */
  function PointerAt(reader: Reader, table: nat, i: nat): Option<nat> {
    var bytes := reader.read(table + i * POINTER_SIZE, POINTER_SIZE);
    if bytes.None? then None else Some(FromBytesLittle(bytes.value))
  }

  /** The descriptor behind the i-th pointer; None when something about it fails. */
  function EntryAt<D>(reader: Reader, table: nat, i: nat, hash: seq<byte> -> D): Option<Descriptor<D>> {
    var pointer := PointerAt(reader, table, i);
    if pointer.None? || pointer.value < reader.imageBase then None
    else
      var record := reader.read(pointer.value - reader.imageBase, DESCRIPTOR_SIZE);
      if record.None? then None
      else ParseDescriptor(i, pointer.value - reader.imageBase, record.value, reader, hash)
  }

  /** n is the place of the first null pointer, and every entry before it is good. */
  predicate TerminatedAt<D(==)>(reader: Reader, table: nat, n: nat, hash: seq<byte> -> D) {
    && PointerAt(reader, table, n) == Some(0)
    && forall i: nat :: i < n ==> PointerAt(reader, table, i) != Some(0) && EntryAt(reader, table, i, hash).Some?
  }

  lemma FailureEndsNothing<D>(reader: Reader, table: nat, k: nat, hash: seq<byte> -> D, n: nat)
    requires EntryAt(reader, table, k, hash).None?
    requires forall i: nat :: i <= k ==> PointerAt(reader, table, i) != Some(0)
    ensures !TerminatedAt(reader, table, n, hash)
  {
  }

  method ReadEntry<D>(reader: Reader, pointer: Option<nat>, index: nat, hash: seq<byte> -> D, ghost table: nat)
    returns (d: Option<Descriptor<D>>)
    requires pointer == PointerAt(reader, table, index)
    ensures d == EntryAt(reader, table, index, hash)
    ensures d.Some? ==> Stored(d.value, reader, hash)
  {
    hide ParseDescriptor;
    if pointer.None? || pointer.value < reader.imageBase {
      return None;
    }
    var rva := pointer.value - reader.imageBase;
    var record := reader.read(rva, DESCRIPTOR_SIZE);
    if record.None? {
      return None;
    }
    ParsedIsStored(index, rva, record.value, reader, hash);
    d := ParseDescriptor(index, rva, record.value, reader, hash);
  }

  /** `parse_catalog`: succeeds exactly when a null pointer comes within the maximum and everything before it
      parses, and returns one descriptor per pointer before the first null, with digests of what is stored. */
  method ParseCatalog<D(==)>(reader: Reader, table: nat, maximum: nat, hash: seq<byte> -> D)
    returns (r: Option<seq<Descriptor<D>>>)
    ensures r.Some? <==> exists n: nat :: n < maximum && TerminatedAt(reader, table, n, hash)
    ensures r.Some? ==>
              && TerminatedAt(reader, table, |r.value|, hash)
              && forall i :: 0 <= i < |r.value| ==>
                   Some(r.value[i]) == EntryAt(reader, table, i, hash) && Stored(r.value[i], reader, hash)
  {
    hide EntryAt, Stored;
    var descriptors: seq<Descriptor<D>> := [];
    for index := 0 to maximum
      invariant |descriptors| == index
      invariant forall i: nat :: i < index ==> PointerAt(reader, table, i) != Some(0)
      invariant forall i: nat :: i < index ==>
                  Some(descriptors[i]) == EntryAt(reader, table, i, hash) && Stored(descriptors[i], reader, hash)
    {
      var pointer := PointerAt(reader, table, index);
      if pointer.Some? && pointer.value == 0 {
        assert TerminatedAt(reader, table, index, hash);
        return Some(descriptors);
      }
      var d := ReadEntry(reader, pointer, index, hash, table);
      if d.None? {
        forall n: nat | n < maximum
          ensures !TerminatedAt(reader, table, n, hash)
        {
          FailureEndsNothing(reader, table, index, hash, n);
        }
        return None;
      }
      descriptors := descriptors + [d.value];
    }
    return None;
  }

  // ---------------------------------------------------------------- matching a payload

  datatype Form = Complete | CommandByteRemoved
  datatype Match = Match(form: Form, descriptor: nat)

  /** The forms of a capture that are looked up. */
  function Candidates(captured: seq<byte>): seq<(Form, seq<byte>)> {
    [(Complete, captured)] + if captured != [] then [(CommandByteRemoved, captured[1..])] else []
  }

  /** Exact comparison, without any prefilter. */
  function ExactFor<D>(form: Form, candidate: seq<byte>, ds: seq<Descriptor<D>>, reader: Reader): seq<Match> {
    if ds == [] then []
    else
      var d := ds[|ds| - 1];
      ExactFor(form, candidate, ds[..|ds| - 1], reader)
      + if reader.read(d.payloadRva, d.payloadLength) == Some(candidate) then [Match(form, d.index)] else []
  }

  function ExactMatches<D>(candidates: seq<(Form, seq<byte>)>, ds: seq<Descriptor<D>>, reader: Reader): seq<Match> {
    if candidates == [] then []
    else
      var c := candidates[|candidates| - 1];
      ExactMatches(candidates[..|candidates| - 1], ds, reader) + ExactFor(c.0, c.1, ds, reader)
  }

  /** Every descriptor was parsed from this reader. */
  ghost predicate AllStored<D>(ds: seq<Descriptor<D>>, reader: Reader, hash: seq<byte> -> D) {
    reader.Sound() && forall d :: d in ds ==> Stored(d, reader, hash)
  }

  /** `match_payload`: the length and digest tests before the exact comparison neither drop nor add a match,
      whatever the hash function. */
  method MatchPayload<D(==)>(captured: seq<byte>, ds: seq<Descriptor<D>>, reader: Reader, hash: seq<byte> -> D)
    returns (matches: seq<Match>)
    requires AllStored(ds, reader, hash)
    ensures matches == ExactMatches(Candidates(captured), ds, reader)
  {
    var candidates := Candidates(captured);
    matches := [];
    for k := 0 to |candidates|
      invariant matches == ExactMatches(candidates[..k], ds, reader)
    {
      var (form, candidate) := candidates[k];
      ghost var before := matches;
      var digest := hash(candidate);
      for i := 0 to |ds|
        invariant matches == before + ExactFor(form, candidate, ds[..i], reader)
      {
        var d := ds[i];
        assert Stored(d, reader, hash);
        assert ds[..i + 1][..i] == ds[..i];
        if |candidate| != d.payloadLength || digest != d.digest {
          continue;
        }
        if Some(candidate) == reader.read(d.payloadRva, d.payloadLength) {
          matches := matches + [Match(form, d.index)];
        }
      }
      assert ds[..|ds|] == ds;
      assert candidates[..k + 1][..k] == candidates[..k];
    }
    assert candidates[..|candidates|] == candidates;
  }

  /** The result lists exactly the pairs of form and descriptor whose stored payload is the candidate. */
  lemma {:induction false} ExactForMeaning<D>(form: Form, candidate: seq<byte>, ds: seq<Descriptor<D>>,
                                              reader: Reader, m: Match)
    ensures m in ExactFor(form, candidate, ds, reader) <==>
              m.form == form
              && exists i :: 0 <= i < |ds| && ds[i].index == m.descriptor
                   && reader.read(ds[i].payloadRva, ds[i].payloadLength) == Some(candidate)
  {
    if ds == [] {
    } else {
      ExactForMeaning(form, candidate, ds[..|ds| - 1], reader, m);
    }
  }

  predicate Lists<D>(c: (Form, seq<byte>), ds: seq<Descriptor<D>>, reader: Reader, m: Match) {
    m in ExactFor(c.0, c.1, ds, reader)
  }

  lemma ListedLast<D>(cs: seq<(Form, seq<byte>)>, ds: seq<Descriptor<D>>, reader: Reader, m: Match)
    requires cs != []
    ensures m in ExactMatches(cs, ds, reader)
            <==> m in ExactMatches(cs[..|cs| - 1], ds, reader) || Lists(cs[|cs| - 1], ds, reader, m)
  {
    hide ExactFor;
  }

  lemma {:induction false} ExactMatchesUnion<D>(cs: seq<(Form, seq<byte>)>, ds: seq<Descriptor<D>>,
                                                reader: Reader, m: Match)
    ensures m in ExactMatches(cs, ds, reader) <==> exists k :: 0 <= k < |cs| && Lists(cs[k], ds, reader, m)
  {
    if cs == [] {
    } else {
      var front := cs[..|cs| - 1];
      ExactMatchesUnion(front, ds, reader, m);
      ListedLast(cs, ds, reader, m);
      hide Lists, ExactMatches;
      assert forall k :: 0 <= k < |front| ==> cs[k] == front[k];
    }
  }

  /** The bytes a capture stands for in one form, if it has that form. */
  function FormOf(captured: seq<byte>, form: Form): Option<seq<byte>> {
    if form == Complete then Some(captured) else if captured != [] then Some(captured[1..]) else None
  }

  /** The result for a capture lists exactly the pairs of a form and a descriptor such that the descriptor's
      stored payload is the capture in that form: as it is, or without its first byte. */
  lemma ExactMatchesMeaning<D>(captured: seq<byte>, ds: seq<Descriptor<D>>, reader: Reader, m: Match)
    ensures m in ExactMatches(Candidates(captured), ds, reader) <==>
              && FormOf(captured, m.form).Some?
              && exists i :: 0 <= i < |ds| && ds[i].index == m.descriptor
                   && reader.read(ds[i].payloadRva, ds[i].payloadLength) == FormOf(captured, m.form)
  {
    var cs := Candidates(captured);
    ExactMatchesUnion(cs, ds, reader, m);
    ExactForMeaning(Complete, captured, ds, reader, m);
    assert cs[0] == (Complete, captured);
    if captured != [] {
      ExactForMeaning(CommandByteRemoved, captured[1..], ds, reader, m);
      assert cs[1] == (CommandByteRemoved, captured[1..]);
    }
    hide ExactFor, ExactMatches;
  }

  // ---------------------------------------------------------------- the record and the table, byte by byte

  lemma {:induction false} SelectorCount(record: seq<byte>, n: nat)
    requires |record| == 0x50 && 4 * n <= 0x34
    ensures |SelectorsFrom(record, 0x44 - 4 * n)| == n
  {
    if n == 0 {
    } else {
      SelectorCount(record, n - 1);
      assert 0x44 - 4 * n + 4 == 0x44 - 4 * (n - 1);
      hide Bytes.Le32;
    }
  }

  lemma {:induction false} SelectorAt(record: seq<byte>, offset: nat, i: nat)
    requires |record| == 0x50 && i < |SelectorsFrom(record, offset)|
    ensures offset + 4 * i + 4 <= 0x44
    ensures SelectorsFrom(record, offset)[i] == Le32(record[offset + 4 * i..])
    decreases i
  {
    hide Bytes.Le32;
    if i == 0 {
    } else {
      SelectorAt(record, offset + 4, i - 1);
      assert offset + 4 + 4 * (i - 1) == offset + 4 * i;
    }
  }

  lemma FirstSelector(record: seq<byte>, offset: nat)
    requires offset + 4 <= |record|
    ensures Le32(record[offset..])
         == Join4(record[offset], record[offset + 1], record[offset + 2], record[offset + 3])
  {
  }

  lemma RecordFields(record: seq<byte>)
    requires |record| == 0x50
    ensures Le32(record[LENGTH_OFFSET..]) == Join4(record[0x44], record[0x45], record[0x46], record[0x47])
    ensures record[PAYLOAD_POINTER_OFFSET..] == record[0x48..0x50]
    ensures |SelectorsFrom(record, 0x10)| == 13
    ensures forall i :: 0 <= i < 13 ==>
              SelectorsFrom(record, 0x10)[i] == Join4(record[0x10 + 4 * i], record[0x11 + 4 * i],
                                                      record[0x12 + 4 * i], record[0x13 + 4 * i])
  {
    SelectorIs(record, 0);
    LengthField(record);
    hide *;
    forall i: nat | i < 13
      ensures SelectorsFrom(record, 0x10)[i] == Join4(record[0x10 + 4 * i], record[0x11 + 4 * i],
                                                      record[0x12 + 4 * i], record[0x13 + 4 * i])
    {
      SelectorIs(record, i);
    }
  }

  lemma SelectorIs(record: seq<byte>, i: nat)
    requires |record| == 0x50 && i < 13
    ensures |SelectorsFrom(record, 0x10)| == 13
    ensures SelectorsFrom(record, 0x10)[i] == Join4(record[0x10 + 4 * i], record[0x11 + 4 * i],
                                                    record[0x12 + 4 * i], record[0x13 + 4 * i])
  {
    SelectorCount(record, 13);
    assert 0x44 - 4 * 13 == 0x10;
    SelectorAt(record, 0x10, i);
    FirstSelector(record, 0x10 + 4 * i);
    hide SelectorsFrom, Bytes.Join4, Bytes.Le32;
    assert 0x10 + 4 * i + 1 == 0x11 + 4 * i && 0x10 + 4 * i + 2 == 0x12 + 4 * i && 0x10 + 4 * i + 3 == 0x13 + 4 * i;
  }

  lemma LengthField(record: seq<byte>)
    requires |record| == 0x50
    ensures Le32(record[LENGTH_OFFSET..]) == Join4(record[0x44], record[0x45], record[0x46], record[0x47])
    ensures record[PAYLOAD_POINTER_OFFSET..] == record[0x48..0x50]
  {
  }

  /** A descriptor record is parsed exactly when it has 0x50 bytes of which the first 16 are zero, and the payload whose
      length is at 0x44 and whose address is at 0x48 can be read and has its four-byte header. */
  lemma ParsedExactly<D>(index: nat, rva: nat, record: seq<byte>, reader: Reader, hash: seq<byte> -> D)
    ensures ParseDescriptor(index, rva, record, reader, hash).Some? <==>
              && |record| == 0x50 && (forall i :: 0 <= i < 0x10 ==> record[i] == 0)
              && var length := Join4(record[0x44], record[0x45], record[0x46], record[0x47]);
                 var address := FromBytesLittle(record[0x48..0x50]);
                 && address >= reader.imageBase && length >= 4
                 && var payload := reader.read(address - reader.imageBase, length);
                    payload.Some? && |payload.value| >= 4
  {
    if |record| == 0x50 {
      RecordFields(record);
    }
    hide SelectorsFrom, Bytes.FromBytesLittle, Bytes.Le32, Bytes.Join4;
  }

  /** What is parsed: the payload's place, length, digest, header and alignment, and the 13 selectors from 0x10 on. */
  lemma ParsedFields<D>(index: nat, rva: nat, record: seq<byte>, reader: Reader, hash: seq<byte> -> D)
    requires |record| == 0x50 && ParseDescriptor(index, rva, record, reader, hash).Some?
    ensures var d := ParseDescriptor(index, rva, record, reader, hash).value;
      && d.index == index && d.rva == rva
      && d.payloadLength == Join4(record[0x44], record[0x45], record[0x46], record[0x47])
      && d.payloadRva + reader.imageBase == FromBytesLittle(record[0x48..0x50])
      && var payload := reader.read(d.payloadRva, d.payloadLength);
         && payload.Some? && d.digest == hash(payload.value) && |payload.value| >= 4 && d.header == payload.value[..4]
    ensures var d := ParseDescriptor(index, rva, record, reader, hash).value;
      && (d.aligned <==> exists blocks: nat :: d.payloadLength == 4 + 16 * blocks)
      && |d.selectors| == 13
      && forall i :: 0 <= i < 13 ==>
           d.selectors[i] == Join4(record[0x10 + 4 * i], record[0x11 + 4 * i],
                                   record[0x12 + 4 * i], record[0x13 + 4 * i])
  {
    RecordFields(record);
    WholeBlocks(Le32(record[LENGTH_OFFSET..]));
    hide SelectorsFrom, Bytes.FromBytesLittle, Bytes.Le32, Bytes.Join4;
  }

  lemma WholeBlocks(length: nat)
    ensures length >= 4 ==> ((length - 4) % 16 == 0 <==> exists blocks: nat :: length == 4 + 16 * blocks)
  {
    if length >= 4 && (length - 4) % 16 == 0 {
      assert length == 4 + 16 * ((length - 4) / 16);
    }
  }

  /** The table: 8-byte little-endian addresses, one after the other; an entry is the record of 0x50 bytes at its
      address, and the table ends at the first address that is null. */
  lemma TableExactly<D>(reader: Reader, table: nat, i: nat, hash: seq<byte> -> D)
    ensures var bytes := reader.read(table + 8 * i, 8);
      PointerAt(reader, table, i) == if bytes.Some? then Some(FromBytesLittle(bytes.value)) else None
    ensures EntryAt(reader, table, i, hash).Some? ==>
              var bytes := reader.read(table + 8 * i, 8);
              && bytes.Some? && FromBytesLittle(bytes.value) >= reader.imageBase
              && var rva: nat := FromBytesLittle(bytes.value) - reader.imageBase;
                 var record := reader.read(rva, 0x50);
                 && record.Some?
                 && EntryAt(reader, table, i, hash) == ParseDescriptor(i, rva, record.value, reader, hash)
    ensures EntryAt(reader, table, i, hash).None? ==>
              var bytes := reader.read(table + 8 * i, 8);
              || bytes.None? || FromBytesLittle(bytes.value) < reader.imageBase
              || var rva: nat := FromBytesLittle(bytes.value) - reader.imageBase;
                 var record := reader.read(rva, 0x50);
                 record.None? || ParseDescriptor(i, rva, record.value, reader, hash).None?
    ensures TerminatedAt(reader, table, i, hash) <==>
              && PointerAt(reader, table, i) == Some(0)
              && forall j: nat :: j < i ==>
                   PointerAt(reader, table, j) != Some(0) && EntryAt(reader, table, j, hash).Some?
  {
    hide ParseDescriptor, Bytes.FromBytesLittle;
  }

  /** The matches stand in the order of the forms, and for each form in the order of the descriptors. */
  lemma {:induction false} MatchesInOrder<D>(form: Form, candidate: seq<byte>, a: seq<Descriptor<D>>,
                                             b: seq<Descriptor<D>>, reader: Reader)
    ensures ExactFor(form, candidate, a + b, reader)
         == ExactFor(form, candidate, a, reader) + ExactFor(form, candidate, b, reader)
  {
    if b == [] {
      assert a + b == a;
    } else {
      var front := b[..|b| - 1];
      MatchesInOrder(form, candidate, a, front, reader);
      assert (a + b)[..|a + b| - 1] == a + front;
    }
  }

  lemma FormsInOrder<D>(captured: seq<byte>, ds: seq<Descriptor<D>>, reader: Reader)
    ensures ExactMatches(Candidates(captured), ds, reader)
         == ExactFor(Complete, captured, ds, reader)
            + if captured != [] then ExactFor(CommandByteRemoved, captured[1..], ds, reader) else []
  {
    OneForm((Complete, captured), ds, reader);
    if captured != [] {
      var cs: seq<(Form, seq<byte>)> := [(Complete, captured), (CommandByteRemoved, captured[1..])];
      assert cs[..1] == [(Complete, captured)];
      assert Candidates(captured) == cs;
      hide ExactFor;
    } else {
      assert Candidates(captured) == [(Complete, captured)];
    }
  }

  lemma OneForm<D>(c: (Form, seq<byte>), ds: seq<Descriptor<D>>, reader: Reader)
    ensures ExactMatches([c], ds, reader) == ExactFor(c.0, c.1, ds, reader)
  {
    var cs: seq<(Form, seq<byte>)> := [c];
    assert cs[..0] == [];
    hide ExactFor;
  }
}
