/** The timeline panel: the shown records newest first, each with an icon, a colour, a label
    and, on the newest, the "Current" flag. */
module Timeline {
  import opened Common

  datatype Icon = Activity | TrendingUp | Users

  datatype Colour = Red | Blue | Cyan

  /** An entry label: "Initial State" or "Event n". */
  datatype Label = InitialState | Event(number: nat)

  datatype Entry = Entry(record: StepRecord, icon: Icon, colour: Colour, caption: Label, latest: bool)

  /** `list.reverse()` on a copy. */
  function Reverse<T>(s: seq<T>): (r: seq<T>)
    ensures |r| == |s|
    ensures forall i :: 0 <= i < |s| ==> r[i] == s[|s| - 1 - i]
  {
    if |s| == 0 then []
    else
      var rest := Reverse(s[1..]);
      assert forall i :: 0 <= i < |rest| ==> rest[i] == s[|s| - 1 - i];
      rest + [s[0]]
  }

  /** `simulationData.slice(0, currentStep + 1).reverse()`: records 0..currentStep that
      exist, newest first. */
  function DisplayData(data: seq<StepRecord>, currentStep: nat): (r: seq<StepRecord>)
    ensures |r| <= currentStep + 1 && |r| <= |data|
    ensures |r| == |data| || |r| == currentStep + 1
    ensures forall i :: 0 <= i < |r| ==> r[i] == data[|r| - 1 - i]
  {
    var n := if currentStep + 1 < |data| then currentStep + 1 else |data|;
    Reverse(data[..n])
  }

  predicate HasInfected(rec: StepRecord) { |rec.newInfected| > 0 }

  predicate HasRecovered(rec: StepRecord) { |rec.newRecovered| > 0 }

  /** `getEventIcon`. */
  function EventIcon(rec: StepRecord): (icon: Icon)
    ensures icon == TrendingUp <==> HasInfected(rec) && !HasRecovered(rec)
    ensures icon == Users <==> HasRecovered(rec) && !HasInfected(rec)
    ensures icon == Activity <==> HasInfected(rec) == HasRecovered(rec)
  {
    if HasInfected(rec) && HasRecovered(rec) then Activity
    else if HasInfected(rec) then TrendingUp
    else if HasRecovered(rec) then Users
    else Activity
  }

  /** `getEventColor`. */
  function EventColour(rec: StepRecord): (colour: Colour)
    ensures colour == Red <==> HasInfected(rec) && !HasRecovered(rec)
    ensures colour == Blue <==> HasRecovered(rec) && !HasInfected(rec)
    ensures colour == Cyan <==> HasInfected(rec) == HasRecovered(rec)
  {
    if HasInfected(rec) && !HasRecovered(rec) then Red
    else if HasRecovered(rec) && !HasInfected(rec) then Blue
    else Cyan
  }

  /** Icon and colour tell the same story: a rising trend is red, recoveries alone are
      blue, and everything else is the cyan activity marker. */
  lemma IconMatchesColour(rec: StepRecord)
    ensures EventIcon(rec) == TrendingUp <==> EventColour(rec) == Red
    ensures EventIcon(rec) == Users <==> EventColour(rec) == Blue
    ensures EventIcon(rec) == Activity <==> EventColour(rec) == Cyan
  {
  }

  /** The label of display position `index` among `n` entries. */
  function EntryLabel(n: nat, index: nat): (l: Label)
    requires index < n
    ensures l == InitialState <==> index == n - 1
    ensures l.Event? ==> 1 <= l.number <= n - 1 && l.number == n - 1 - index
  {
    if index == n - 1 then InitialState else Event(n - index - 1)
  }

  /** The timeline: `None` (the placeholder) without data, otherwise one entry per shown
      record, newest first. */
  function Entries(data: seq<StepRecord>, currentStep: nat): (es: Option<seq<Entry>>)
    ensures es.None? <==> |data| == 0
    ensures es.Some? ==>
      var shown := DisplayData(data, currentStep);
      |es.value| == |shown| > 0 &&
      forall i :: 0 <= i < |shown| ==>
        es.value[i] == Entry(shown[i], EventIcon(shown[i]), EventColour(shown[i]),
                             EntryLabel(|shown|, i), i == 0)
  {
    if |data| == 0 then None
    else
      var shown := DisplayData(data, currentStep);
      Some(seq(|shown|, i requires 0 <= i < |shown| =>
        Entry(shown[i], EventIcon(shown[i]), EventColour(shown[i]), EntryLabel(|shown|, i), i == 0)))
  }

  /** Each entry is labelled by the position of the record it shows: record 0 is the initial
      state and record j > 0 is "Event j". Exactly one entry, the one showing the newest
      shown record, is flagged as latest. */
  lemma LabelsFollowRecords(data: seq<StepRecord>, currentStep: nat)
    requires |data| > 0
    ensures var es := Entries(data, currentStep).value;
      var n := |es|;
      (forall i :: 0 <= i < n ==> es[i].record == data[n - 1 - i]) &&
      (forall i :: 0 <= i < n ==>
         (es[i].caption == InitialState <==> n - 1 - i == 0) &&
         (es[i].caption.Event? ==> es[i].caption.number == n - 1 - i)) &&
      (forall i :: 0 <= i < n ==> (es[i].latest <==> i == 0)) &&
      es[0].record == data[n - 1] &&
      (n - 1 == currentStep || n == |data|)
  {
    var es := Entries(data, currentStep).value;
    var shown := DisplayData(data, currentStep);
    var n := |shown|;
    forall i | 0 <= i < n
      ensures es[i].record == data[n - 1 - i]
      ensures es[i].caption == EntryLabel(n, i) && (es[i].latest <==> i == 0)
    {
    }
  }
}
