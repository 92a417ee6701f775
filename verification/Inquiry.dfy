/** The idempotency key of an inquiry, printed as the application prints it. */
module InquiryKeys {
  import opened Numerals

  /** A UTC calendar day. JavaScript dates have years from -271821 to 275760. */
  datatype UtcDay = UtcDay(year: int, month: nat, day: nat) {
    predicate Valid() {
      -271_821 <= year <= 275_760 && 1 <= month <= 12 && 1 <= day <= 31
    }

    /** Years that toISOString prints with four digits and no sign. */
    predicate FourDigits() {
      0 <= year <= 9999
    }
  }

  function Abs(n: int): nat {
    if n < 0 then -n else n
  }

  /** toISOString() up to and including the day. */
  function IsoDate(d: UtcDay): string
    requires d.Valid()
  {
    (if d.FourDigits() then Pad(Print(d.year, 10), 4)
     else (if d.year < 0 then "-" else "+") + Pad(Print(Abs(d.year), 10), 6))
    + "-" + Pad(Print(d.month, 10), 2) + "-" + Pad(Print(d.day, 10), 2)
  }

  function DaySlice(d: UtcDay): (s: string)
    requires d.Valid()
    ensures |s| == 10
  {
    IsoDateLong(d);
    IsoDate(d)[..10]
  }

  function InquiryKey(listingId: nat, gleanerId: string, d: UtcDay): string
    requires d.Valid()
  {
    KeyOf(listingId, gleanerId, DaySlice(d))
  }

  function KeyOf(l: nat, g: string, slice: string): string {
    "inquiry:" + Print(l, 10) + ":" + g + ":" + slice
  }

  lemma PadStartsWithDigit(n: nat, width: nat)
    ensures |Pad(Print(n, 10), width)| >= 1 && '0' <= Pad(Print(n, 10), width)[0] <= '9'
  {
    var p := Print(n, 10);
    assert p[0] in DIGITS[..10];
    assert |p| < width ==> Pad(p, width)[0] == Zeros(width - |p|)[0];
  }

  lemma Widths()
    ensures Power(10, 2) == 100 && Power(10, 4) == 10_000 && Power(10, 6) == 1_000_000
  {
    assert Power(10, 3) == 1000 && Power(10, 5) == 100_000;
  }

  lemma IsoDateLong(d: UtcDay)
    requires d.Valid()
    ensures |IsoDate(d)| >= 10
    ensures d.FourDigits() ==>
              IsoDate(d)[..10] ==
              Pad(Print(d.year, 10), 4) + "-" + Pad(Print(d.month, 10), 2) + "-" + Pad(Print(d.day, 10), 2)
    ensures !d.FourDigits() ==>
              IsoDate(d)[..10] ==
              (if d.year < 0 then "-" else "+") + Pad(Print(Abs(d.year), 10), 6) + "-" + Pad(Print(d.month, 10), 2)
  {
    Widths();
    PadRoundTrip(d.month, 10, 2);
    PadRoundTrip(d.day, 10, 2);
    if d.FourDigits() {
      PadRoundTrip(d.year, 10, 4);
    } else {
      PadRoundTrip(Abs(d.year), 10, 6);
    }
  }

  /** Days whose first ten characters agree: the same day, or beyond year 9999 and before year 0 the same month. */
  predicate SameSlot(d: UtcDay, e: UtcDay) {
    d.year == e.year && d.month == e.month && (d.FourDigits() ==> d.day == e.day)
  }

  lemma DaySliceExactly(d: UtcDay, e: UtcDay)
    requires d.Valid() && e.Valid()
    ensures DaySlice(d) == DaySlice(e) <==> SameSlot(d, e)
  {
    IsoDateLong(d);
    IsoDateLong(e);
    SliceParts(d);
    SliceParts(e);
  }

  /** What can be read back from the ten characters. */
  lemma SliceParts(d: UtcDay)
    requires d.Valid()
    ensures d.FourDigits() ==>
              && '0' <= DaySlice(d)[0] <= '9'
              && Parse(DaySlice(d)[..4], 10) == d.year && Parse(DaySlice(d)[5..7], 10) == d.month
              && Parse(DaySlice(d)[8..10], 10) == d.day
    ensures !d.FourDigits() ==>
              && DaySlice(d)[0] == (if d.year < 0 then '-' else '+')
              && Parse(DaySlice(d)[1..7], 10) == Abs(d.year) && Parse(DaySlice(d)[8..10], 10) == d.month
  {
    if d.FourDigits() {
      ShortParts(d);
    } else {
      LongParts(d);
    }
  }

  lemma ShortParts(d: UtcDay)
    requires d.Valid() && d.FourDigits()
    ensures '0' <= DaySlice(d)[0] <= '9'
    ensures Parse(DaySlice(d)[..4], 10) == d.year && Parse(DaySlice(d)[5..7], 10) == d.month
    ensures Parse(DaySlice(d)[8..10], 10) == d.day
  {
    Widths();
    PadRoundTrip(d.year, 10, 4);
    PadRoundTrip(d.month, 10, 2);
    PadRoundTrip(d.day, 10, 2);
    PadStartsWithDigit(d.year, 4);
    ShortSlices(d);
  }

  lemma ShortSlices(d: UtcDay)
    requires d.Valid() && d.FourDigits()
    ensures var year := Pad(Print(d.year, 10), 4);
            |year| == 4 && DaySlice(d)[0] == year[0] && DaySlice(d)[..4] == year
    ensures DaySlice(d)[5..7] == Pad(Print(d.month, 10), 2) && DaySlice(d)[8..10] == Pad(Print(d.day, 10), 2)
  {
    Widths();
    PadRoundTrip(d.year, 10, 4);
    PadRoundTrip(d.month, 10, 2);
    PadRoundTrip(d.day, 10, 2);
    Slices("", Pad(Print(d.year, 10), 4), Pad(Print(d.month, 10), 2), Pad(Print(d.day, 10), 2));
  }

  lemma LongParts(d: UtcDay)
    requires d.Valid() && !d.FourDigits()
    ensures DaySlice(d)[0] == (if d.year < 0 then '-' else '+')
    ensures Parse(DaySlice(d)[1..7], 10) == Abs(d.year) && Parse(DaySlice(d)[8..10], 10) == d.month
  {
    Widths();
    PadRoundTrip(Abs(d.year), 10, 6);
    PadRoundTrip(d.month, 10, 2);
    LongSlices(d);
  }

  lemma LongSlices(d: UtcDay)
    requires d.Valid() && !d.FourDigits()
    ensures DaySlice(d)[0] == (if d.year < 0 then '-' else '+')
    ensures DaySlice(d)[1..7] == Pad(Print(Abs(d.year), 10), 6) && DaySlice(d)[8..10] == Pad(Print(d.month, 10), 2)
  {
    var sign := if d.year < 0 then "-" else "+";
    var year, month := Pad(Print(Abs(d.year), 10), 6), Pad(Print(d.month, 10), 2);
    Widths();
    PadRoundTrip(Abs(d.year), 10, 6);
    PadRoundTrip(d.month, 10, 2);
    Slices(sign, year, month, "");
    assert DaySlice(d) == sign + year + "-" + month;
  }

  lemma Slices(sign: string, year: string, month: string, day: string)
    requires |sign| + |year| >= 1 && |month| == 2
    ensures var head := sign + year + "-" + month;
            && (sign == "" ==> head[0] == year[0]) && (sign != "" ==> head[0] == sign[0])
            && head[|sign|..|sign| + |year|] == year
            && head[|sign| + |year| + 1..|sign| + |year| + 3] == month
    ensures sign == "" ==>
              var all := year + "-" + month + "-" + day;
              && all[0] == year[0] && all[..|year|] == year && all[|year| + 1..|year| + 3] == month
              && all[|year| + 4..|year| + 4 + |day|] == day
  {
  }

  lemma TailsExactly(g: string, slice: string, g': string, slice': string)
    requires |slice| == |slice'| && g + ":" + slice == g' + ":" + slice'
    ensures g == g' && slice == slice'
  {
    var t, t' := g + ":" + slice, g' + ":" + slice';
    assert |t| == |g| + 1 + |slice| && |t'| == |g'| + 1 + |slice'|;
    assert g == t[..|g|] && g' == t'[..|g|];
    assert slice == t[|g| + 1..] && slice' == t'[|g| + 1..];
  }

  lemma HeadsExactly(head: string, l: nat, tail: string, l': nat, tail': string)
    requires head + Print(l, 10) + ":" + tail == head + Print(l', 10) + ":" + tail'
    ensures l == l' && tail == tail'
  {
    var p, p' := Print(l, 10), Print(l', 10);
    CancelHead(head, p, tail);
    CancelHead(head, p', tail');
    assert ':' !in DIGITS[..10];
    SplitAtFirst(p, tail, p', tail', ':');
    PrintInjective(l, l', 10);
  }

  lemma CancelHead(head: string, p: string, tail: string)
    ensures (head + p + ":" + tail)[|head|..] == p + [':'] + tail
  {
  }

  /** Two inquiries get one key exactly when listing and gleaner agree and the days share their slot. */
  lemma InquiryKeyExactly(l: nat, g: string, d: UtcDay, l': nat, g': string, d': UtcDay)
    requires d.Valid() && d'.Valid()
    ensures InquiryKey(l, g, d) == InquiryKey(l', g', d') <==> l == l' && g == g' && SameSlot(d, d')
  {
    DaySliceExactly(d, d');
    KeyParts(l, g, DaySlice(d), l', g', DaySlice(d'));
  }

  lemma KeyParts(l: nat, g: string, slice: string, l': nat, g': string, slice': string)
    requires |slice| == |slice'|
    ensures KeyOf(l, g, slice) == KeyOf(l', g', slice') <==> l == l' && g == g' && slice == slice'
  {
    var tail, tail' := g + ":" + slice, g' + ":" + slice';
    assert KeyOf(l, g, slice) == "inquiry:" + Print(l, 10) + ":" + tail;
    assert KeyOf(l', g', slice') == "inquiry:" + Print(l', 10) + ":" + tail';
    if KeyOf(l, g, slice) == KeyOf(l', g', slice') {
      HeadsExactly("inquiry:", l, tail, l', tail');
      TailsExactly(g, slice, g', slice');
    }
  }

  lemma ExampleDay()
    ensures Pad(Print(2024, 10), 4) == "2024" && Pad(Print(3, 10), 2) == "03" && Pad(Print(5, 10), 2) == "05"
  {
    assert Print(2, 10) == "2" && Print(20, 10) == "20" && Print(202, 10) == "202" && Print(2024, 10) == "2024";
    assert Print(3, 10) == "3" && Print(5, 10) == "5" && Zeros(1) == "0";
  }

  lemma ExampleSlice()
    ensures DaySlice(UtcDay(2024, 3, 5)) == "2024-03-05"
  {
    ExampleDay();
    assert IsoDate(UtcDay(2024, 3, 5)) == "2024" + "-" + "03" + "-" + "05";
  }

  lemma KeyText(l: nat, g: string, d: UtcDay, number: string, slice: string)
    requires d.Valid() && number == Print(l, 10) && slice == DaySlice(d)
    ensures InquiryKey(l, g, d) == "inquiry:" + number + ":" + g + ":" + slice
  {
  }

  lemma Seven()
    ensures Print(7, 10) == "7"
  {
  }

  /** The shape of the key, on an example. */
  lemma InquiryKeyExample(gleaner: string)
    ensures InquiryKey(7, gleaner, UtcDay(2024, 3, 5)) == "inquiry:" + "7" + ":" + gleaner + ":" + "2024-03-05"
  {
    ExampleSlice();
    Seven();
    KeyText(7, gleaner, UtcDay(2024, 3, 5), "7", "2024-03-05");
  }
}

/** submitInquiry from end to end: one owner email key and one inquiries row for each listing, gleaner and day. */
module Inquiry {
  import opened Values
  import opened StepIds
  import opened Table
  import opened Worker
  import opened Cells
  import opened Replay
  import opened Clusters
  import opened Enqueue
  import opened InquiryKeys

  const SUBMIT_INQUIRY: Body := (input, results) =>
    if |results| == 0 then Call("sendOwnerEmail", false)
    else if |results| == 1 then Call("createInquiry", true)
    else Return(results[1])

  /** ctx.stepKey */
  function StepKey(workflowId: string, name: string): string {
    workflowId + ":" + name
  }

  /** The email key is the workflow's id and the step's name, and no two workflows share one. */
  lemma EmailKeyNamesWorkflow(id: string, other: string)
    ensures StepKey(id, "sendOwnerEmail") == id + ":sendOwnerEmail"
    ensures StepKey(id, "sendOwnerEmail") == StepKey(other, "sendOwnerEmail") <==> id == other
  {
    var k, k' := id + ":sendOwnerEmail", other + ":sendOwnerEmail";
    assert id + ":" + "sendOwnerEmail" == k && other + ":" + "sendOwnerEmail" == k';
    assert id == k[..|k| - 15] && other == k'[..|k'| - 15];
  }

  /** The idempotency keys of every email call made so far by workflows that carry `key`. */
  ghost function EmailKeys(k: Cluster, key: string): set<string> {
    set id | id in k.cells && k.cells[id].row.key == Some(key)
             && (exists i :: 0 <= i < |k.cells[id].runs| && k.cells[id].runs[i].stepId == "sendOwnerEmail")
           :: StepKey(id, "sendOwnerEmail")
  }

  lemma EmailPath(input: Json, value: Json)
    ensures LogAlong(SUBMIT_INQUIRY, input, [value]) == map["sendOwnerEmail" := StepOk("sendOwnerEmail", value)]
    ensures TxIds(SUBMIT_INQUIRY, input, [value]) == {}
    ensures CountsAlong(SUBMIT_INQUIRY, input, [value]) == map["sendOwnerEmail" := 1]
  {
    Extend(SUBMIT_INQUIRY, input, [], value);
    assert [] + [value] == [value];
  }

  /** What the two-step body logs and writes along any path: the email first, the inquiry second, then nothing. */
  lemma InquiryPath(input: Json, path: seq<Json>)
    requires Follows(SUBMIT_INQUIRY, input, path)
    ensures |path| <= 2
    ensures |path| == 0 ==> LogAlong(SUBMIT_INQUIRY, input, path) == map[]
    ensures |path| == 1 ==>
              LogAlong(SUBMIT_INQUIRY, input, path) == map["sendOwnerEmail" := StepOk("sendOwnerEmail", path[0])]
    ensures |path| == 2 ==>
              LogAlong(SUBMIT_INQUIRY, input, path) == map["sendOwnerEmail" := StepOk("sendOwnerEmail", path[0]),
                                                           "createInquiry" := StepOk("createInquiry", path[1])]
    ensures TxIds(SUBMIT_INQUIRY, input, path) == if |path| < 2 then {} else {"createInquiry"}
  {
    if |path| >= 1 {
      EmailPath(input, path[0]);
      assert path[..1] == [path[0]];
    }
    if |path| == 1 {
      assert path == [path[0]];
    }
    if |path| == 2 {
      assert path == path[..1] + [path[1]];
      Extend(SUBMIT_INQUIRY, input, path[..1], path[1]);
    }
  }

  /** The workflow of one key commits its inquiry once, after the email's step row, and succeeds only with it. */
  lemma InquiryWrittenOnce(registry: Registry, run: seq<Cluster>, steps: seq<ClusterStep>, i: nat, id: string)
    requires IsRun(registry, run, steps) && OnTime(run, steps) && i < |run| && id in run[i].cells
    requires run[i].cells[id].row.name == "submitInquiry"
    requires "submitInquiry" in registry && registry["submitInquiry"] == SUBMIT_INQUIRY
    ensures var c := run[i].cells[id];
            && c.commits == (if "createInquiry" in c.log then multiset{"createInquiry"} else multiset{})
            && ("createInquiry" in c.log ==> "sendOwnerEmail" in c.log)
            && (c.row.status.Success? ==>
                  "createInquiry" in c.log && c.log["createInquiry"].StepOk?
                  && c.row.output == Some(c.log["createInquiry"].output))
  {
    var path := ClusterReplay(registry, run, steps, i, id);
    var c := run[i].cells[id];
    InquiryPath(c.row.input, path);
  }

  /**
   * However often and however concurrently an inquiry is submitted: there is at most one workflow for its key, at
   * most one inquiries row is committed through it, and all its email calls carry one idempotency key.
   */
  lemma OneInquiryForEachDay(registry: Registry, run: seq<Cluster>, steps: seq<ClusterStep>, i: nat,
                             listingId: nat, gleanerId: string, day: UtcDay)
    requires IsRun(registry, run, steps) && OnTime(run, steps) && i < |run| && day.Valid()
    requires "submitInquiry" in registry && registry["submitInquiry"] == SUBMIT_INQUIRY
    requires forall id :: id in run[i].cells && run[i].cells[id].row.key == Some(InquiryKey(listingId, gleanerId, day))
                          ==> run[i].cells[id].row.name == "submitInquiry"
    ensures var key := InquiryKey(listingId, gleanerId, day);
            && (forall x, y ::
                  (x in run[i].cells && y in run[i].cells
                   && run[i].cells[x].row.key == Some(key) && run[i].cells[y].row.key == Some(key)) ==> x == y)
            && (forall x :: x in run[i].cells && run[i].cells[x].row.key == Some(key) ==>
                  |run[i].cells[x].commits| <= 1)
            && |EmailKeys(run[i], key)| <= 1
  {
    EnqueuedAlways(registry, run, steps, i);
    var key := InquiryKey(listingId, gleanerId, day);
    forall x | x in run[i].cells && run[i].cells[x].row.key == Some(key) ensures |run[i].cells[x].commits| <= 1 {
      InquiryWrittenOnce(registry, run, steps, i, x);
    }
    if EmailKeys(run[i], key) != {} {
      var k :| k in EmailKeys(run[i], key);
      SubsetSize(EmailKeys(run[i], key), {k});
    }
  }

  /** Two answered submissions share a workflow exactly when listing, gleaner and day slot agree. */
  lemma SharedWorkflowExactlyWhen(registry: Registry, run: seq<Cluster>, steps: seq<ClusterStep>, i: nat, m: nat,
                                  n: nat,
                                  l: nat, g: string, d: UtcDay, l': nat, g': string, d': UtcDay)
    requires IsRun(registry, run, steps) && i < |run| && d.Valid() && d'.Valid()
    requires m in run[i].submissions && run[i].submissions[m].phase.Returned?
    requires n in run[i].submissions && run[i].submissions[n].phase.Returned?
    requires run[i].submissions[m].row.key == Some(InquiryKey(l, g, d))
    requires run[i].submissions[n].row.key == Some(InquiryKey(l', g', d'))
    ensures run[i].submissions[m].phase.id == run[i].submissions[n].phase.id <==>
            l == l' && g == g' && SameSlot(d, d')
  {
    InquiryKeyExactly(l, g, d, l', g', d');
    EnqueuedAlways(registry, run, steps, i);
    assert Honoured(run[i], run[i].submissions[m]) && Honoured(run[i], run[i].submissions[n]);
  }
}
