/** Where the tail of a captured payload stands in the vendor binary. */
module Provenance {
  import opened Bytes

  datatype Embedded = Embedded(payloadOffset: nat, binaryOffset: nat, length: nat)

  predicate OccursAt(part: seq<byte>, binary: seq<byte>, k: nat) {
    k + |part| <= |binary| && binary[k..k + |part|] == part
  }

  ghost predicate Occurs(part: seq<byte>, binary: seq<byte>) {
    exists k: nat :: OccursAt(part, binary, k)
  }

  /** Python's `bytes.find`: the first occurrence. */
  method Find(binary: seq<byte>, part: seq<byte>) returns (k: Option<nat>)
    ensures k.Some? ==> OccursAt(part, binary, k.value) && forall j: nat :: j < k.value ==> !OccursAt(part, binary, j)
    ensures k.None? ==> !Occurs(part, binary)
  {
    for i := 0 to |binary| + 1
      invariant forall j: nat :: j < i ==> !OccursAt(part, binary, j)
    {
      if OccursAt(part, binary, i) {
        return Some(i);
      }
    }
    return None;
  }

  /** A shorter suffix of something that occurs occurs too. */
  lemma SuffixOccurs(payload: seq<byte>, binary: seq<byte>, i: nat, j: nat)
    requires i <= j <= |payload| && Occurs(payload[i..], binary)
    ensures Occurs(payload[j..], binary)
  {
    var k: nat :| OccursAt(payload[i..], binary, k);
    assert payload[j..] == payload[i..][j - i..];
    assert OccursAt(payload[j..], binary, k + (j - i));
  }

  /** `payload_provenance`: the longest suffix of the payload that occurs in the binary, at its first
      occurrence; none exactly when the payload is empty or its last byte does not occur. */
  method PayloadProvenance(payload: seq<byte>, binary: seq<byte>) returns (r: Option<Embedded>)
    ensures r.None? <==> payload == [] || payload[|payload| - 1] !in binary
    ensures r.Some? ==>
              var e := r.value;
              && e.payloadOffset < |payload| && e.length == |payload| - e.payloadOffset
              && OccursAt(payload[e.payloadOffset..], binary, e.binaryOffset)
              && (forall j: nat :: j < e.binaryOffset ==> !OccursAt(payload[e.payloadOffset..], binary, j))
              && (forall i: nat :: i <= |payload| ==>
                    (Occurs(payload[i..], binary) <==> e.payloadOffset <= i))
  {
    r := None;
    for offset := 0 to |payload|
      invariant r.None? && forall i: nat :: i < offset ==> !Occurs(payload[i..], binary)
    {
      var k := Find(binary, payload[offset..]);
      if k.Some? {
        LastByteOccurs(payload, binary, offset);
        forall i: nat | offset <= i <= |payload|
          ensures Occurs(payload[i..], binary)
        {
          SuffixOccurs(payload, binary, offset, i);
        }
        return Some(Embedded(offset, k.value, |payload| - offset));
      }
    }
    if payload != [] && payload[|payload| - 1] in binary {
      var n := |payload| - 1;
      var k: nat :| k < |binary| && binary[k] == payload[n];
      assert OccursAt(payload[n..], binary, k);
      assert Occurs(payload[n..], binary);
    }
  }

  lemma LastByteOccurs(payload: seq<byte>, binary: seq<byte>, offset: nat)
    requires offset < |payload| && Occurs(payload[offset..], binary)
    ensures payload[|payload| - 1] in binary
  {
    var k: nat :| OccursAt(payload[offset..], binary, k);
    var m := |payload| - 1 - offset;
    assert binary[k..k + |payload[offset..]|][m] == payload[offset..][m];
  }
}
