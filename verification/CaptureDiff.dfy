/** Comparing the command payloads of several captures, group by group. */
module CaptureDiff {
  import opened Bytes

  /** Opcode and length of a command payload. */
  datatype Key = Key(opcode: byte, length: nat)

  datatype Report = Report(key: Key, occurrences: nat, variants: nat, offsets: seq<nat>)

  function KeyOf(payload: seq<byte>): Key
    requires payload != []
  {
    Key(payload[0], |payload|)
  }

  predicate NonEmpty(payloads: seq<seq<byte>>) {
    forall i :: 0 <= i < |payloads| ==> payloads[i] != []
  }

  /** The payloads of one group, in capture order. */
  function GroupOf(payloads: seq<seq<byte>>, key: Key): (r: seq<seq<byte>>)
    requires NonEmpty(payloads)
    ensures forall i :: 0 <= i < |r| ==> |r[i]| == key.length
  {
    if payloads == [] then []
    else
      var n := |payloads| - 1;
      GroupOf(payloads[..n], key) + if KeyOf(payloads[n]) == key then [payloads[n]] else []
  }

  // ---------------------------------------------------------------- one group

  /** Some two payloads of the group disagree at this offset. */
  ghost predicate Differs(values: seq<seq<byte>>, offset: nat) {
    exists i, j :: 0 <= i < |values| && 0 <= j < |values|
      && offset < |values[i]| && offset < |values[j]| && values[i][offset] != values[j][offset]
  }

  predicate Ascending(s: seq<nat>) {
    forall i, j :: 0 <= i < j < |s| ==> s[i] < s[j]
  }

  /** Exactly the offsets at which the group disagrees. */
  ghost predicate ExactOffsets(values: seq<seq<byte>>, offsets: seq<nat>) {
    Ascending(offsets) && forall k: nat :: k in offsets <==> Differs(values, k)
  }

  ghost predicate InjectiveOn<D>(digest: seq<byte> -> D, values: seq<seq<byte>>) {
    forall i, j :: 0 <= i < |values| && 0 <= j < |values| && digest(values[i]) == digest(values[j]) ==>
      values[i] == values[j]
  }

  function Variants<D>(digest: seq<byte> -> D, values: seq<seq<byte>>): set<D> {
    set i | 0 <= i < |values| :: digest(values[i])
  }

  /** The inner loop, which only compares with the first payload. */
  method DifferingOffsets(values: seq<seq<byte>>, length: nat) returns (offsets: seq<nat>)
    requires values != [] && forall i :: 0 <= i < |values| ==> |values[i]| == length
    ensures ExactOffsets(values, offsets)
  {
    var baseline := values[0];
    offsets := [];
    for index := 0 to length
      invariant Ascending(offsets) && forall i :: 0 <= i < |offsets| ==> offsets[i] < index
      invariant forall k: nat :: k in offsets <==> k < index && Differs(values, k)
    {
      var differs := false;
      for j := 1 to |values|
        invariant differs <==> exists i :: 1 <= i < j && values[i][index] != baseline[index]
      {
        if values[j][index] != baseline[index] {
          differs := true;
        }
      }
      if differs {
        var i :| 1 <= i < |values| && values[i][index] != baseline[index];
        assert values[i][index] != values[0][index];
        assert Differs(values, index);
        offsets := offsets + [index];
      } else {
        assert forall i :: 0 <= i < |values| ==> values[i][index] == baseline[index];
      }
    }
  }

  lemma SameValuesSameOffsets(values: seq<seq<byte>>, length: nat)
    requires forall i :: 0 <= i < |values| ==> |values[i]| == length
    ensures (forall i, j :: 0 <= i < |values| && 0 <= j < |values| ==> values[i] == values[j])
            <==> (forall k: nat :: !Differs(values, k))
  {
    if forall k: nat :: !Differs(values, k) {
      forall i, j | 0 <= i < |values| && 0 <= j < |values|
        ensures values[i] == values[j]
      {
        forall k | 0 <= k < length
          ensures values[i][k] == values[j][k]
        {
          assert !Differs(values, k);
        }
      }
    }
  }

  lemma OneVariant<D>(digest: seq<byte> -> D, values: seq<seq<byte>>)
    requires values != []
    ensures |Variants(digest, values)| >= 1
    ensures |Variants(digest, values)| <= 1
            <==> forall i, j :: 0 <= i < |values| && 0 <= j < |values| ==> digest(values[i]) == digest(values[j])
  {
    var vs := Variants(digest, values);
    var d := digest(values[0]);
    assert d in vs;
    if |vs| <= 1 {
      assert |vs - {d}| == |vs| - 1;
      assert vs - {d} == {};
      forall i | 0 <= i < |values|
        ensures digest(values[i]) == d
      {
        assert digest(values[i]) in vs;
      }
    }
    if forall i, j :: 0 <= i < |values| && 0 <= j < |values| ==> digest(values[i]) == digest(values[j]) {
      assert vs == {d};
    }
  }

  ghost predicate Correct<D>(digest: seq<byte> -> D, values: seq<seq<byte>>, r: Report) {
    && r.occurrences == |values| && r.variants == |Variants(digest, values)|
    && (r.variants > 1 ==> ExactOffsets(values, r.offsets)) && (r.variants <= 1 ==> r.offsets == [])
  }

  /** One entry of the output. */
  method DiffGroup<D(==)>(values: seq<seq<byte>>, key: Key, digest: seq<byte> -> D) returns (r: Report)
    requires values != [] && forall i :: 0 <= i < |values| ==> |values[i]| == key.length
    ensures r.key == key && Correct(digest, values, r)
  {
    var variants: set<D> := {};
    for i := 0 to |values|
      invariant variants == Variants(digest, values[..i])
    {
      variants := variants + {digest(values[i])};
      assert forall k :: 0 <= k < i ==> values[..i][k] == values[..i + 1][k];
      assert values[..i + 1][i] == values[i];
    }
    assert values[..|values|] == values;
    var offsets: seq<nat> := [];
    if |variants| > 1 {
      offsets := DifferingOffsets(values, key.length);
    }
    return Report(key, |values|, |variants|, offsets);
  }

  /** If no two different payloads of the group share a digest, the reported offsets are exactly those at which
      some two payloads disagree, whatever the number of variants, and there are some exactly when there is
      more than one variant. */
  lemma OffsetsExactUnderInjectivity<D>(digest: seq<byte> -> D, values: seq<seq<byte>>, length: nat, r: Report)
    requires values != [] && (forall i :: 0 <= i < |values| ==> |values[i]| == length)
    requires Correct(digest, values, r) && InjectiveOn(digest, values)
    ensures ExactOffsets(values, r.offsets)
    ensures r.offsets != [] <==> r.variants > 1
  {
    OneVariant(digest, values);
    SameValuesSameOffsets(values, length);
    if r.variants > 1 {
      var k: nat :| Differs(values, k);
      assert k in r.offsets;
    }
  }

  // ---------------------------------------------------------------- all groups

  function CountIn(payloads: seq<seq<byte>>, keys: set<Key>): nat
    requires NonEmpty(payloads)
  {
    if payloads == [] then 0
    else
      var n := |payloads| - 1;
      CountIn(payloads[..n], keys) + if KeyOf(payloads[n]) in keys then 1 else 0
  }

  lemma {:induction false} CountWithout(payloads: seq<seq<byte>>, keys: set<Key>, key: Key)
    requires NonEmpty(payloads) && key in keys
    ensures CountIn(payloads, keys) == CountIn(payloads, keys - {key}) + |GroupOf(payloads, key)|
  {
    if payloads == [] {
    } else {
      CountWithout(payloads[..|payloads| - 1], keys, key);
    }
  }

  lemma {:induction false} CountOfAll(payloads: seq<seq<byte>>, keys: set<Key>)
    requires NonEmpty(payloads)
    ensures (forall i :: 0 <= i < |payloads| ==> KeyOf(payloads[i]) in keys) ==> CountIn(payloads, keys) == |payloads|
    ensures CountIn(payloads, {}) == 0
  {
    if payloads == [] {
    } else {
      CountOfAll(payloads[..|payloads| - 1], keys);
    }
  }

  function Total(reports: seq<Report>): nat {
    if reports == [] then 0 else Total(reports[..|reports| - 1]) + reports[|reports| - 1].occurrences
  }

  /** The groups of a list of payloads: one non-empty entry per key that occurs. */
  ghost predicate Groups(groups: map<Key, seq<seq<byte>>>, payloads: seq<seq<byte>>)
    requires NonEmpty(payloads)
  {
    && (forall i :: 0 <= i < |payloads| ==> KeyOf(payloads[i]) in groups)
    && (forall key :: key in groups ==> groups[key] == GroupOf(payloads, key) && groups[key] != [])
  }

  lemma {:induction false} OnlyOccurringKeys(payloads: seq<seq<byte>>, key: Key)
    requires NonEmpty(payloads)
    ensures GroupOf(payloads, key) != [] ==> exists i :: 0 <= i < |payloads| && KeyOf(payloads[i]) == key
  {
    if payloads == [] {
    } else {
      OnlyOccurringKeys(payloads[..|payloads| - 1], key);
    }
  }

  lemma GroupOfOneMore(before: seq<seq<byte>>, p: seq<byte>, key: Key)
    requires NonEmpty(before) && p != []
    ensures NonEmpty(before + [p])
    ensures GroupOf(before + [p], key) == GroupOf(before, key) + if KeyOf(p) == key then [p] else []
  {
    assert (before + [p])[..|before|] == before;
  }

  lemma GroupOneMore(groups: map<Key, seq<seq<byte>>>, before: seq<seq<byte>>, p: seq<byte>)
    requires NonEmpty(before) && p != [] && Groups(groups, before)
    ensures NonEmpty(before + [p])
    ensures var key := KeyOf(p);
      Groups(groups[key := (if key in groups then groups[key] else []) + [p]], before + [p])
  {
    var all, key := before + [p], KeyOf(p);
    GroupOfOneMore(before, p, key);
    KeysOneMore(groups, before, p);
    NewKeyIsEmpty(groups, before, key);
    var longer := groups[key := (if key in groups then groups[key] else []) + [p]];
    forall k | k in longer
      ensures longer[k] == GroupOf(all, k) && longer[k] != []
    {
      GroupOfOneMore(before, p, k);
      hide GroupOf;
    }
    hide GroupOf, KeyOf;
  }

  lemma KeysOneMore(groups: map<Key, seq<seq<byte>>>, before: seq<seq<byte>>, p: seq<byte>)
    requires NonEmpty(before) && p != [] && Groups(groups, before)
    ensures NonEmpty(before + [p])
    ensures forall i :: 0 <= i < |before + [p]| ==>
              KeyOf((before + [p])[i]) in groups || KeyOf((before + [p])[i]) == KeyOf(p)
  {
    hide GroupOf, KeyOf;
    assert forall i :: 0 <= i < |before| ==> (before + [p])[i] == before[i];
  }

  lemma NewKeyIsEmpty(groups: map<Key, seq<seq<byte>>>, before: seq<seq<byte>>, key: Key)
    requires NonEmpty(before) && Groups(groups, before)
    ensures key in groups || GroupOf(before, key) == []
  {
    OnlyOccurringKeys(before, key);
    hide GroupOf;
  }

  lemma NothingGrouped()
    ensures Groups(map[], [])
  {
  }

  method GroupPayloads(payloads: seq<seq<byte>>) returns (groups: map<Key, seq<seq<byte>>>)
    requires NonEmpty(payloads)
    ensures Groups(groups, payloads)
  {
    NothingGrouped();
    hide Groups, GroupOf;
    groups := map[];
    for k := 0 to |payloads|
      invariant Groups(groups, payloads[..k])
    {
      var key := KeyOf(payloads[k]);
      GroupOneMore(groups, payloads[..k], payloads[k]);
      groups := groups[key := (if key in groups then groups[key] else []) + [payloads[k]]];
      assert payloads[..k + 1] == payloads[..k] + [payloads[k]];
    }
    assert payloads[..|payloads|] == payloads;
  }

  predicate KeyLess(a: Key, b: Key) {
    a.opcode < b.opcode || (a.opcode == b.opcode && a.length < b.length)
  }

  method LeastKey(keys: set<Key>) returns (key: Key)
    requires keys != {}
    ensures key in keys && forall k :: k in keys && k != key ==> KeyLess(key, k)
  {
    key :| key in keys;
    var rest := keys - {key};
    while rest != {}
      invariant key in keys && rest <= keys
      invariant forall k :: k in keys && k !in rest && k != key ==> KeyLess(key, k)
      decreases rest
    {
      var k :| k in rest;
      rest := rest - {k};
      if KeyLess(k, key) {
        key := k;
      }
    }
  }

  lemma NothingReported()
    ensures Total([]) == 0
  {
  }

  lemma TotalOneMore(reports: seq<Report>, r: Report)
    ensures Total(reports + [r]) == Total(reports) + r.occurrences
  {
    assert (reports + [r])[..|reports|] == reports;
  }

  lemma OccurrencesOf<D>(digest: seq<byte> -> D, values: seq<seq<byte>>, r: Report)
    requires Correct(digest, values, r)
    ensures r.occurrences == |values|
  {
  }

  /** `diff_captures` on the command payloads of all captures: one correct report per group, sorted by opcode and
      length, and every command counted once. */
  method DiffCaptures<D(==)>(payloads: seq<seq<byte>>, digest: seq<byte> -> D) returns (output: seq<Report>)
    requires NonEmpty(payloads)
    ensures forall i :: 0 <= i < |output| ==> Correct(digest, GroupOf(payloads, output[i].key), output[i])
    ensures forall i, j :: 0 <= i < j < |output| ==> KeyLess(output[i].key, output[j].key)
    ensures Total(output) == |payloads|
  {
    var groups := GroupPayloads(payloads);
    output := [];
    var keys := groups.Keys;
    CountOfAll(payloads, keys);
    hide Correct, CountIn, Total, KeyLess, GroupOf;
    assert Total(output) == 0 by { NothingReported(); }
    while keys != {}
      invariant keys <= groups.Keys
      invariant forall i :: 0 <= i < |output| ==> Correct(digest, GroupOf(payloads, output[i].key), output[i])
      invariant forall i, k :: 0 <= i < |output| && k in keys ==> KeyLess(output[i].key, k)
      invariant forall i, j :: 0 <= i < j < |output| ==> KeyLess(output[i].key, output[j].key)
      invariant Total(output) + CountIn(payloads, keys) == |payloads|
      decreases keys
    {
      var key := LeastKey(keys);
      var report := DiffGroup(groups[key], key, digest);
      CountWithout(payloads, keys, key);
      OccurrencesOf(digest, groups[key], report);
      TotalOneMore(output, report);
      output := output + [report];
      keys := keys - {key};
    }
    CountOfAll(payloads, keys);
  }

  // ---------------------------------------------------------------- what a group is

  /** A group holds the payloads with its first byte and its length, in capture order. */
  lemma GroupsByOpcodeAndLength(before: seq<seq<byte>>, p: seq<byte>, key: Key)
    requires NonEmpty(before) && p != []
    ensures NonEmpty(before + [p]) && GroupOf([], key) == []
    ensures GroupOf(before + [p], key)
         == if p[0] == key.opcode && |p| == key.length then GroupOf(before, key) + [p] else GroupOf(before, key)
  {
    GroupOfOneMore(before, p, key);
  }

  /** The order of the reports: by opcode, then by length. */
  lemma ReportOrder(a: Key, b: Key)
    ensures KeyLess(a, b) <==> a.opcode < b.opcode || (a.opcode == b.opcode && a.length < b.length)
  {
  }
}
