/** Pairing the records of a USB capture into commands with their responses, interrupts and control transfers. */
module Transactions {
  import opened Bytes

  datatype Record = Record(frame: nat, endpoint: Option<int>, transferType: Option<int>,
                           request: Option<int>, payload: seq<byte>)

  datatype Transaction =
    | Command(head: Record, responses: seq<Record>)
    | Interrupt(head: Record)
    | Control(head: Record)

  // ---------------------------------------------------------------- what a record is

  predicate IsCommand(r: Record) {
    r.endpoint == Some(0x01)
  }

  predicate IsInterrupt(r: Record) {
    r.endpoint == Some(0x83)
  }

  predicate IsControl(r: Record) {
    r.transferType == Some(2) && r.request.Some?
  }

  /** An inbound record is a response once a command was seen; before that it is looked at like any other. */
  predicate IsResponse(r: Record, seen: bool) {
    r.endpoint == Some(0x81) && seen
  }

  // ---------------------------------------------------------------- the reference grouping

  predicate HasCommand(ts: seq<Transaction>) {
    exists i :: 0 <= i < |ts| && ts[i].Command?
  }

  /** The response goes to the latest command. */
  function AddResponse(ts: seq<Transaction>, r: Record): (us: seq<Transaction>)
    ensures |us| == |ts|
    ensures forall i :: 0 <= i < |ts| ==> us[i].head == ts[i].head
  {
    if ts == [] then []
    else
      var n := |ts| - 1;
      if ts[n].Command? then ts[..n] + [Command(ts[n].head, ts[n].responses + [r])]
      else AddResponse(ts[..n], r) + [ts[n]]
  }

  /** One record after the other, in capture order. */
  function Grouped(rs: seq<Record>): seq<Transaction> {
    if rs == [] then []
    else
      var before, r := Grouped(rs[..|rs| - 1]), rs[|rs| - 1];
      if IsCommand(r) then before + [Command(r, [])]
      else if IsResponse(r, HasCommand(before)) then AddResponse(before, r)
      else if IsInterrupt(r) then before + [Interrupt(r)]
      else if IsControl(r) then before + [Control(r)]
      else before
  }

  lemma GroupedOneMore(before: seq<Record>, r: Record)
    ensures var ts := Grouped(before);
      Grouped(before + [r]) ==
        if IsCommand(r) then ts + [Command(r, [])]
        else if IsResponse(r, HasCommand(ts)) then AddResponse(ts, r)
        else if IsInterrupt(r) then ts + [Interrupt(r)]
        else if IsControl(r) then ts + [Control(r)]
        else ts
  {
    assert (before + [r])[..|before|] == before;
  }

  // ---------------------------------------------------------------- sorting by frame

  /** Python's stable sort by frame. */
  function InsertByFrame(ts: seq<Transaction>, t: Transaction): (us: seq<Transaction>)
    ensures multiset(us) == multiset(ts) + multiset{t}
  {
    if ts == [] then [t]
    else
      var n := |ts| - 1;
      assert ts == ts[..n] + [ts[n]];
      if ts[n].head.frame <= t.head.frame then ts + [t]
      else InsertByFrame(ts[..n], t) + [ts[n]]
  }

  function SortByFrame(ts: seq<Transaction>): (us: seq<Transaction>)
    ensures multiset(us) == multiset(ts)
  {
    if ts == [] then []
    else
      assert ts == ts[..|ts| - 1] + [ts[|ts| - 1]];
      InsertByFrame(SortByFrame(ts[..|ts| - 1]), ts[|ts| - 1])
  }

  predicate FrameOrder(ts: seq<Transaction>) {
    forall i, j :: 0 <= i < j < |ts| ==> ts[i].head.frame <= ts[j].head.frame
  }

  predicate StrictFrameOrder(ts: seq<Transaction>) {
    forall i, j :: 0 <= i < j < |ts| ==> ts[i].head.frame < ts[j].head.frame
  }

  lemma OrderAppend(ts: seq<Transaction>, t: Transaction)
    requires FrameOrder(ts) && forall i :: 0 <= i < |ts| ==> ts[i].head.frame <= t.head.frame
    ensures FrameOrder(ts + [t])
  {
  }

  lemma {:induction false} InsertKeepsOrder(ts: seq<Transaction>, t: Transaction)
    requires FrameOrder(ts)
    ensures FrameOrder(InsertByFrame(ts, t))
  {
    assert ts != [] ==> ts == ts[..|ts| - 1] + [ts[|ts| - 1]];
    if ts != [] && ts[|ts| - 1].head.frame > t.head.frame {
      var n := |ts| - 1;
      InsertKeepsOrder(ts[..n], t);
      InsertBelow(ts[..n], t, ts[n].head.frame);
      OrderAppend(InsertByFrame(ts[..n], t), ts[n]);
    } else {
      OrderAppend(ts, t);
    }
  }

  lemma {:induction false} InsertBelow(ts: seq<Transaction>, t: Transaction, frame: nat)
    requires t.head.frame <= frame && forall i :: 0 <= i < |ts| ==> ts[i].head.frame <= frame
    ensures forall i :: 0 <= i < |InsertByFrame(ts, t)| ==> InsertByFrame(ts, t)[i].head.frame <= frame
  {
    if ts != [] && ts[|ts| - 1].head.frame > t.head.frame {
      InsertBelow(ts[..|ts| - 1], t, frame);
    }
  }

  lemma {:induction false} SortOrders(ts: seq<Transaction>)
    ensures FrameOrder(SortByFrame(ts))
  {
    if ts == [] {
    } else {
      SortOrders(ts[..|ts| - 1]);
      InsertKeepsOrder(SortByFrame(ts[..|ts| - 1]), ts[|ts| - 1]);
    }
  }

  lemma LastOut(a: seq<Transaction>)
    requires a != []
    ensures multiset(a[..|a| - 1]) == multiset(a) - multiset{a[|a| - 1]}
  {
    assert a == a[..|a| - 1] + [a[|a| - 1]];
  }

  lemma DropLast(a: seq<Transaction>, b: seq<Transaction>)
    requires a != [] && b != [] && multiset(a) == multiset(b) && a[|a| - 1] == b[|b| - 1]
    ensures multiset(a[..|a| - 1]) == multiset(b[..|b| - 1])
  {
    LastOut(a);
    LastOut(b);
  }

  lemma SameLast(a: seq<Transaction>, b: seq<Transaction>)
    requires FrameOrder(a) && StrictFrameOrder(b) && multiset(a) == multiset(b) && a != []
    ensures b != [] && a[|a| - 1] == b[|b| - 1]
  {
    var x := a[|a| - 1];
    assert x in multiset(b);
    var j :| 0 <= j < |b| && b[j] == x;
    var y := b[|b| - 1];
    assert y in multiset(a);
    var i :| 0 <= i < |a| && a[i] == y;
    assert y.head.frame <= x.head.frame;
    assert j < |b| - 1 ==> x.head.frame < y.head.frame;
  }

  /** With distinct frames there is only one sorted arrangement. */
  lemma {:induction false} SortedIsUnique(a: seq<Transaction>, b: seq<Transaction>)
    requires FrameOrder(a) && StrictFrameOrder(b) && multiset(a) == multiset(b)
    ensures a == b
  {
    if a == [] {
      assert |multiset(b)| == |b|;
    } else {
      SameLast(a, b);
      DropLast(a, b);
      SortedIsUnique(a[..|a| - 1], b[..|b| - 1]);
      assert a == a[..|a| - 1] + [a[|a| - 1]];
    }
  }

  // ---------------------------------------------------------------- the loop of the tool

  predicate NoCommand(ts: seq<Transaction>) {
    forall i :: 0 <= i < |ts| ==> !ts[i].Command?
  }

  /** The finished list is a rearrangement of the reference grouping without its latest command. */
  ghost predicate Splits(result: seq<Transaction>, pending: Option<Transaction>, whole: seq<Transaction>,
                         a: seq<Transaction>, b: seq<Transaction>)
  {
    && multiset(result) == multiset(a + b) && NoCommand(b)
    && match pending
       case None => NoCommand(a) && whole == a + b
       case Some(c) => c.Command? && whole == a + [c] + b
  }

  lemma SplitsHasCommand(result: seq<Transaction>, pending: Option<Transaction>, whole: seq<Transaction>,
                         a: seq<Transaction>, b: seq<Transaction>)
    requires Splits(result, pending, whole, a, b)
    ensures HasCommand(whole) <==> pending.Some?
  {
    if pending.Some? {
      assert whole[|a|] == pending.value;
    }
  }

  lemma {:induction false} AddResponseAt(ts: seq<Transaction>, c: Transaction, us: seq<Transaction>, r: Record)
    requires c.Command? && NoCommand(us)
    ensures AddResponse(ts + [c] + us, r) == ts + [Command(c.head, c.responses + [r])] + us
    decreases |us|
  {
    var whole := ts + [c] + us;
    if us == [] {
      assert whole[..|whole| - 1] == ts;
    } else {
      var n := |us| - 1;
      assert whole[..|whole| - 1] == ts + [c] + us[..n];
      AddResponseAt(ts, c, us[..n], r);
      assert us == us[..n] + [us[n]];
    }
  }

  lemma OpenCommand(result: seq<Transaction>, pending: Option<Transaction>, whole: seq<Transaction>,
                    a: seq<Transaction>, b: seq<Transaction>, c: Transaction)
    requires Splits(result, pending, whole, a, b) && c.Command?
    ensures multiset(Closed(result, pending)) == multiset(whole)
    ensures Splits(Closed(result, pending), Some(c), whole + [c], whole, [])
  {
    assert whole + [] == whole && whole + [c] == whole + [c] + [];
  }

  lemma Respond(result: seq<Transaction>, c: Transaction, whole: seq<Transaction>,
                a: seq<Transaction>, b: seq<Transaction>, r: Record)
    requires Splits(result, Some(c), whole, a, b)
    ensures Splits(result, Some(Command(c.head, c.responses + [r])), AddResponse(whole, r), a, b)
  {
    AddResponseAt(a, c, b, r);
  }

  lemma Append(result: seq<Transaction>, pending: Option<Transaction>, whole: seq<Transaction>,
               a: seq<Transaction>, b: seq<Transaction>, t: Transaction)
    requires Splits(result, pending, whole, a, b) && !t.Command?
    ensures Splits(result + [t], pending, whole + [t], a, b + [t])
  {
    assert a + (b + [t]) == (a + b) + [t];
  }

  /** The finished list together with the command that is still open. */
  function Closed(result: seq<Transaction>, pending: Option<Transaction>): seq<Transaction> {
    if pending.Some? then result + [pending.value] else result
  }

  /** `transactions`: for any records the output is in frame order and a rearrangement of the reference
      grouping; with strictly increasing frames it is the reference grouping itself. */
  method TransactionsOf(records: seq<Record>) returns (r: seq<Transaction>)
    ensures FrameOrder(r) && multiset(r) == multiset(Grouped(records))
    ensures Increasing(records) ==> r == Grouped(records)
  {
    var result: seq<Transaction> := [];
    var pending: Option<Transaction> := None;
    ghost var a, b: seq<Transaction> := [], [];
    assert Splits(result, pending, Grouped(records[..0]), a, b);
    hide Grouped, AddResponse, HasCommand, Splits, StrictFrameOrder, Increasing;
    for k := 0 to |records|
      invariant Splits(result, pending, Grouped(records[..k]), a, b)
    {
      var record := records[k];
      ghost var whole := Grouped(records[..k]);
      assert records[..k + 1] == records[..k] + [record];
      GroupedOneMore(records[..k], record);
      SplitsHasCommand(result, pending, whole, a, b);
      if record.endpoint == Some(0x01) {
        OpenCommand(result, pending, whole, a, b, Command(record, []));
        if pending.Some? {
          result := result + [pending.value];
        }
        pending := Some(Command(record, []));
        a, b := whole, [];
      } else if record.endpoint == Some(0x81) && pending.Some? {
        OpenIsCommand(result, pending, whole, a, b);
        Respond(result, pending.value, whole, a, b, record);
        pending := Some(Command(pending.value.head, pending.value.responses + [record]));
      } else if record.endpoint == Some(0x83) {
        Append(result, pending, whole, a, b, Interrupt(record));
        result := result + [Interrupt(record)];
        b := b + [Interrupt(record)];
      } else if record.transferType == Some(2) && record.request.Some? {
        Append(result, pending, whole, a, b, Control(record));
        result := result + [Control(record)];
        b := b + [Control(record)];
      }
    }
    assert records[..|records|] == records;
    OpenCommand(result, pending, Grouped(records), a, b, Command(Record(0, None, None, None, []), []));
    if pending.Some? {
      result := result + [pending.value];
    }
    r := SortByFrame(result);
    SortOrders(result);
    if Increasing(records) {
      GroupedFrames(records);
      SortedIsUnique(r, Grouped(records));
    }
  }

  lemma OpenIsCommand(result: seq<Transaction>, pending: Option<Transaction>, whole: seq<Transaction>,
                      a: seq<Transaction>, b: seq<Transaction>)
    requires Splits(result, pending, whole, a, b)
    ensures pending.Some? ==> pending.value.Command?
  {
  }

  // ---------------------------------------------------------------- nothing lost, nothing invented

  predicate Increasing(rs: seq<Record>) {
    forall i, j :: 0 <= i < j < |rs| ==> rs[i].frame < rs[j].frame
  }

  /** A command was sent. */
  predicate Sent(rs: seq<Record>) {
    exists i :: 0 <= i < |rs| && IsCommand(rs[i])
  }

  /** The records that start a transaction, in order. */
  function HeadRecords(rs: seq<Record>): seq<Record> {
    if rs == [] then []
    else
      var before, r := rs[..|rs| - 1], rs[|rs| - 1];
      HeadRecords(before) +
      if IsCommand(r) || (!IsResponse(r, Sent(before)) && (IsInterrupt(r) || IsControl(r))) then [r] else []
  }

  /** The inbound records that follow some command, in order. */
  function ResponseRecords(rs: seq<Record>): seq<Record> {
    if rs == [] then []
    else
      var before, r := rs[..|rs| - 1], rs[|rs| - 1];
      ResponseRecords(before) + if IsResponse(r, Sent(before)) then [r] else []
  }

  /** What the tool does not ignore. */
  function KeptRecords(rs: seq<Record>): seq<Record> {
    if rs == [] then []
    else
      var before, r := rs[..|rs| - 1], rs[|rs| - 1];
      KeptRecords(before) +
      if IsCommand(r) || IsResponse(r, Sent(before)) || IsInterrupt(r) || IsControl(r) then [r] else []
  }

  function Heads(ts: seq<Transaction>): (hs: seq<Record>)
    ensures |hs| == |ts|
  {
    seq(|ts|, i requires 0 <= i < |ts| => ts[i].head)
  }

  function Responses(ts: seq<Transaction>): seq<Record> {
    if ts == [] then []
    else
      var t := ts[|ts| - 1];
      Responses(ts[..|ts| - 1]) + (if t.Command? then t.responses else [])
  }

  lemma {:induction false} ResponsesOfAdd(ts: seq<Transaction>, r: Record)
    requires HasCommand(ts)
    ensures Responses(AddResponse(ts, r)) == Responses(ts) + [r]
    ensures HasCommand(AddResponse(ts, r))
  {
    var n := |ts| - 1;
    var us := AddResponse(ts, r);
    if ts[n].Command? {
      assert us[..n] == ts[..n];
      assert us[n].Command?;
    } else {
      ResponsesOfAdd(ts[..n], r);
      assert us[..n] == AddResponse(ts[..n], r);
      var i :| 0 <= i < n && us[..n][i].Command?;
      assert us[i].Command?;
    }
  }

  lemma OneMoreResponse(ts: seq<Transaction>, t: Transaction)
    ensures Responses(ts + [t]) == Responses(ts) + (if t.Command? then t.responses else [])
    ensures Heads(ts + [t]) == Heads(ts) + [t.head]
    ensures HasCommand(ts + [t]) <==> HasCommand(ts) || t.Command?
  {
    assert (ts + [t])[..|ts|] == ts;
    assert t.Command? ==> (ts + [t])[|ts|].Command?;
    if HasCommand(ts) {
      var i :| 0 <= i < |ts| && ts[i].Command?;
      assert (ts + [t])[i].Command?;
    }
  }

  lemma SentOneMore(before: seq<Record>, r: Record)
    ensures Sent(before + [r]) <==> Sent(before) || IsCommand(r)
  {
    var rs := before + [r];
    if IsCommand(r) {
      assert IsCommand(rs[|before|]);
    }
    if Sent(before) {
      var i :| 0 <= i < |before| && IsCommand(before[i]);
      assert IsCommand(rs[i]);
    }
  }

  predicate KindMatches(t: Transaction) {
    match t
    case Command(head, _) => IsCommand(head)
    case Interrupt(head) => IsInterrupt(head)
    case Control(head) => IsControl(head) && !IsInterrupt(head)
  }

  predicate KindsMatch(ts: seq<Transaction>) {
    forall i :: 0 <= i < |ts| ==> KindMatches(ts[i])
  }

  lemma {:induction false} AddResponseKeepsKinds(ts: seq<Transaction>, r: Record)
    requires KindsMatch(ts)
    ensures KindsMatch(AddResponse(ts, r)) && Heads(AddResponse(ts, r)) == Heads(ts)
  {
    if ts != [] && !ts[|ts| - 1].Command? {
      AddResponseKeepsKinds(ts[..|ts| - 1], r);
    }
  }

  lemma OneMoreKind(ts: seq<Transaction>, t: Transaction)
    requires KindsMatch(ts) && KindMatches(t)
    ensures KindsMatch(ts + [t])
  {
    hide KindMatches;
  }

  /** One record more on the grouping of the records before it. */
  lemma HeadsOneMore(ts: seq<Transaction>, r: Record)
    requires KindsMatch(ts)
    ensures var us := if IsCommand(r) then ts + [Command(r, [])]
                      else if IsResponse(r, HasCommand(ts)) then AddResponse(ts, r)
                      else if IsInterrupt(r) then ts + [Interrupt(r)]
                      else if IsControl(r) then ts + [Control(r)] else ts;
      && Heads(us)
         == Heads(ts) + (if IsCommand(r) || (!IsResponse(r, HasCommand(ts)) && (IsInterrupt(r) || IsControl(r)))
                         then [r] else [])
      && KindsMatch(us) && (HasCommand(us) <==> HasCommand(ts) || IsCommand(r))
  {
    if IsCommand(r) {
      OneMoreResponse(ts, Command(r, []));
      OneMoreKind(ts, Command(r, []));
    } else if IsResponse(r, HasCommand(ts)) {
      AddResponseKeepsKinds(ts, r);
      ResponsesOfAdd(ts, r);
    } else if IsInterrupt(r) {
      OneMoreResponse(ts, Interrupt(r));
      OneMoreKind(ts, Interrupt(r));
    } else if IsControl(r) {
      OneMoreResponse(ts, Control(r));
      OneMoreKind(ts, Control(r));
    }
    hide Heads, HasCommand, AddResponse, Responses, KindsMatch;
  }

  lemma {:induction false} GroupingHeads(rs: seq<Record>)
    ensures Heads(Grouped(rs)) == HeadRecords(rs) && KindsMatch(Grouped(rs))
    ensures HasCommand(Grouped(rs)) <==> Sent(rs)
  {
    if rs == [] {
    } else {
      var before, r := rs[..|rs| - 1], rs[|rs| - 1];
      GroupingHeads(before);
      assert rs == before + [r];
      SentOneMore(before, r);
      GroupedOneMore(before, r);
      HeadsOneMore(Grouped(before), r);
      hide Heads, HasCommand, AddResponse, KindsMatch, Sent, Grouped, IsCommand, IsResponse, IsInterrupt, IsControl;
    }
  }

  lemma {:induction false} GroupingResponses(rs: seq<Record>)
    ensures Responses(Grouped(rs)) == ResponseRecords(rs)
  {
    if rs == [] {
    } else {
      var before, r := rs[..|rs| - 1], rs[|rs| - 1];
      GroupingResponses(before);
      GroupingHeads(before);
      var ts := Grouped(before);
      assert rs == before + [r];
      GroupedOneMore(before, r);
      hide Grouped, AddResponse, HasCommand, Responses, Sent, Heads;
      OneMoreResponse(ts, Command(r, []));
      OneMoreResponse(ts, Interrupt(r));
      OneMoreResponse(ts, Control(r));
      if HasCommand(ts) {
        ResponsesOfAdd(ts, r);
      }
    }
  }

  lemma {:induction false} HeadsAndResponsesAreKept(rs: seq<Record>)
    ensures multiset(HeadRecords(rs)) + multiset(ResponseRecords(rs)) == multiset(KeptRecords(rs))
  {
    if rs == [] {
    } else {
      HeadsAndResponsesAreKept(rs[..|rs| - 1]);
    }
  }

  /** The heads of the transactions are exactly the head records, their responses together exactly the response
      records, both in capture order; every transaction is of the kind of its head; and heads and responses
      together are the records the tool does not ignore. */
  lemma GroupingKeepsRecords(rs: seq<Record>)
    ensures Heads(Grouped(rs)) == HeadRecords(rs)
    ensures Responses(Grouped(rs)) == ResponseRecords(rs)
    ensures KindsMatch(Grouped(rs))
    ensures multiset(Heads(Grouped(rs))) + multiset(Responses(Grouped(rs))) == multiset(KeptRecords(rs))
  {
    GroupingHeads(rs);
    GroupingResponses(rs);
    HeadsAndResponsesAreKept(rs);
  }

  /** Every response is owned by the latest command before it. */
  predicate Owned(ts: seq<Transaction>) {
    forall i, k :: 0 <= i < |ts| && ts[i].Command? && 0 <= k < |ts[i].responses| ==>
      && ts[i].head.frame < ts[i].responses[k].frame
      && (forall j :: i < j < |ts| && ts[j].Command? ==> ts[i].responses[k].frame < ts[j].head.frame)
  }

  predicate Before(ts: seq<Transaction>, frame: nat) {
    forall i :: 0 <= i < |ts| ==>
      && ts[i].head.frame < frame
      && (ts[i].Command? ==> forall k :: 0 <= k < |ts[i].responses| ==> ts[i].responses[k].frame < frame)
  }

  lemma {:induction false} AddResponseOwned(ts: seq<Transaction>, r: Record)
    requires Owned(ts) && Before(ts, r.frame)
    ensures Owned(AddResponse(ts, r)) && Before(AddResponse(ts, r), r.frame + 1)
    ensures forall i :: 0 <= i < |ts| ==> (AddResponse(ts, r)[i].Command? <==> ts[i].Command?)
  {
    if ts == [] {
    } else {
      var n := |ts| - 1;
      if !ts[n].Command? {
        AddResponseOwned(ts[..n], r);
      }
    }
  }

  lemma {:induction false} GroupedFramesBelow(rs: seq<Record>, frame: nat)
    requires Increasing(rs) && forall i :: 0 <= i < |rs| ==> rs[i].frame < frame
    ensures StrictFrameOrder(Grouped(rs)) && Owned(Grouped(rs)) && Before(Grouped(rs), frame)
  {
    hide Owned, Before, StrictFrameOrder;
    if rs == [] {
      NothingOwned(frame);
    } else {
      var before, r := rs[..|rs| - 1], rs[|rs| - 1];
      GroupedFramesBelow(before, r.frame);
      var ts := Grouped(before);
      AddResponseInOrder(ts, r);
      AppendOwned(ts, Command(r, []));
      AppendOwned(ts, Interrupt(r));
      AppendOwned(ts, Control(r));
      BeforeLater(ts, r.frame, frame);
      BeforeLater(Grouped(rs), r.frame + 1, frame);
    }
  }

  lemma NothingOwned(frame: nat)
    ensures StrictFrameOrder([]) && Owned([]) && Before([], frame)
  {
  }

  lemma BeforeLater(ts: seq<Transaction>, f: nat, g: nat)
    ensures Before(ts, f) && f <= g ==> Before(ts, g)
  {
  }

  lemma AddResponseInOrder(ts: seq<Transaction>, r: Record)
    requires StrictFrameOrder(ts) && Owned(ts) && Before(ts, r.frame)
    ensures StrictFrameOrder(AddResponse(ts, r)) && Owned(AddResponse(ts, r)) && Before(AddResponse(ts, r), r.frame + 1)
  {
    AddResponseOwned(ts, r);
  }

  lemma AppendOwned(ts: seq<Transaction>, t: Transaction)
    requires StrictFrameOrder(ts) && Owned(ts) && Before(ts, t.head.frame) && (t.Command? ==> t.responses == [])
    ensures StrictFrameOrder(ts + [t]) && Owned(ts + [t]) && Before(ts + [t], t.head.frame + 1)
  {
  }

  /** With strictly increasing frames the grouping is in frame order, and each response lies between its own
      command and the next one. */
  lemma GroupedFrames(rs: seq<Record>)
    requires Increasing(rs)
    ensures StrictFrameOrder(Grouped(rs)) && Owned(Grouped(rs))
  {
    GroupedFramesBelow(rs, if rs == [] then 0 else rs[|rs| - 1].frame + 1);
  }

  // ---------------------------------------------------------------- the reference grouping, record by record

  /** The response of a command is added at the end of the latest command's, and nothing else changes. */
  lemma {:induction false} ResponseGoesToLatest(ts: seq<Transaction>, r: Record) returns (i: nat)
    requires HasCommand(ts)
    ensures i < |ts| && ts[i].Command? && forall j :: i < j < |ts| ==> !ts[j].Command?
    ensures AddResponse(ts, r) == ts[i := Command(ts[i].head, ts[i].responses + [r])]
  {
    var n := |ts| - 1;
    assert ts == ts[..n] + [ts[n]];
    if ts[n].Command? {
      i := n;
    } else {
      var k :| 0 <= k < |ts| && ts[k].Command?;
      assert ts[..n][k].Command?;
      i := ResponseGoesToLatest(ts[..n], r);
    }
  }

  /** What one record adds: endpoint 0x01 opens a command; 0x81 is a response of the latest command, if there is one;
      0x83 is an interrupt; a control transfer with a request is kept; anything else is ignored. */
  lemma GroupedRecordByRecord(before: seq<Record>, r: Record)
    ensures Grouped([]) == []
    ensures var ts, us := Grouped(before), Grouped(before + [r]);
      && (r.endpoint == Some(0x01) ==> us == ts + [Command(r, [])])
      && (r.endpoint == Some(0x81) && HasCommand(ts) ==> us == AddResponse(ts, r))
      && (r.endpoint == Some(0x83) ==> us == ts + [Interrupt(r)])
      && (r.endpoint !in {Some(0x01), Some(0x83)} && !(r.endpoint == Some(0x81) && HasCommand(ts)) ==>
            us == if r.transferType == Some(2) && r.request.Some? then ts + [Control(r)] else ts)
  {
    GroupedOneMore(before, r);
  }

  // ---------------------------------------------------------------- the sort is stable

  /** The transactions of one frame, in order. */
  function OfFrame(ts: seq<Transaction>, frame: nat): seq<Transaction> {
    if ts == [] then []
    else OfFrame(ts[..|ts| - 1], frame) + if ts[|ts| - 1].head.frame == frame then [ts[|ts| - 1]] else []
  }

  lemma OfFrameOneMore(ts: seq<Transaction>, t: Transaction, frame: nat)
    ensures OfFrame(ts + [t], frame) == OfFrame(ts, frame) + IfFrame(t, frame)
  {
    assert (ts + [t])[..|ts|] == ts;
  }

  function IfFrame(t: Transaction, frame: nat): seq<Transaction> {
    if t.head.frame == frame then [t] else []
  }

  lemma InsertedBefore(ts: seq<Transaction>, t: Transaction)
    requires ts != [] && ts[|ts| - 1].head.frame > t.head.frame
    ensures InsertByFrame(ts, t) == InsertByFrame(ts[..|ts| - 1], t) + [ts[|ts| - 1]]
  {
  }

  lemma Swapped(a: seq<Transaction>, t: Transaction, u: Transaction, frame: nat)
    requires t.head.frame != u.head.frame
    ensures a + IfFrame(t, frame) + IfFrame(u, frame) == a + IfFrame(u, frame) + IfFrame(t, frame)
  {
  }

  lemma {:induction false} InsertIsStable(ts: seq<Transaction>, t: Transaction, frame: nat)
    ensures OfFrame(InsertByFrame(ts, t), frame) == OfFrame(ts, frame) + IfFrame(t, frame)
  {
    OfFrameOneMore(ts, t, frame);
    if ts == [] {
      assert ts + [t] == [t];
    } else {
      var n := |ts| - 1;
      if ts[n].head.frame > t.head.frame {
        OfFrameOneMore(ts[..n], ts[n], frame);
        assert ts[..n] + [ts[n]] == ts;
        InsertIsStable(ts[..n], t, frame);
        InsertedBefore(ts, t);
        OfFrameOneMore(InsertByFrame(ts[..n], t), ts[n], frame);
        Swapped(OfFrame(ts[..n], frame), t, ts[n], frame);
        hide OfFrame, InsertByFrame, IfFrame;
      }
    }
  }

  /** Sorting keeps the order of transactions that share a frame. */
  lemma {:induction false} SortIsStable(ts: seq<Transaction>, frame: nat)
    ensures OfFrame(SortByFrame(ts), frame) == OfFrame(ts, frame)
  {
    if ts == [] {
    } else {
      SortIsStable(ts[..|ts| - 1], frame);
      InsertIsStable(SortByFrame(ts[..|ts| - 1]), ts[|ts| - 1], frame);
    }
  }
}
