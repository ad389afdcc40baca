/** The dynamic branch predictors: tables of saturating two-bit counters, indexed by the word address of
    the branch (bimodal) or by that address combined with the recent outcomes (gshare). */
module Predictor {
  import opened Arith
  import opened Bits

  // ---- One counter ----

  /** A counter stays between 0 and 3 and predicts "taken" from 2 on. */
  function Bumped(c: nat, taken: bool): (r: nat)
    ensures c <= 3 ==> r <= 3
  {
    if taken then (if c < 3 then c + 1 else c) else (if c > 0 then c - 1 else c)
  }

  predicate Predicts(c: nat) { c >= 2 }

  function Miss(c: nat, taken: bool): nat { if Predicts(c) != taken then 1 else 0 }

  /** What the counter has learnt: two outcomes alike decide the prediction, and after three alike one of
      the other kind does not change it. */
  lemma CounterLearns(c: nat, taken: bool)
    requires c <= 3
    ensures Predicts(Bumped(Bumped(c, taken), taken)) == taken
    ensures Predicts(Bumped(Bumped(Bumped(Bumped(c, taken), taken), taken), !taken)) == taken
  {
  }

  /** Mispredictions of one counter on a sequence of outcomes. */
  function EntryErrors(c: nat, outcomes: seq<bool>): nat
    decreases |outcomes|
  {
    if outcomes == [] then 0 else Miss(c, outcomes[0]) + EntryErrors(Bumped(c, outcomes[0]), outcomes[1..])
  }

  /** How often the direction changes. */
  function Changes(outcomes: seq<bool>): nat {
    if |outcomes| < 2 then 0 else (if outcomes[0] != outcomes[1] then 1 else 0) + Changes(outcomes[1..])
  }

  /** How often the counter still misses if the direction stays what it is. */
  function Potential(c: nat, taken: bool): nat {
    if taken then (if c < 2 then 2 - c else 0) else (if c >= 2 then c - 1 else 0)
  }

  lemma {:induction false} EntryBound(c: nat, outcomes: seq<bool>)
    requires c <= 3 && outcomes != []
    ensures EntryErrors(c, outcomes) <= Potential(c, outcomes[0]) + 2 * Changes(outcomes)
    decreases |outcomes|
  {
    if |outcomes| > 1 {
      EntryBound(Bumped(c, outcomes[0]), outcomes[1..]);
    } else {
      assert outcomes[1..] == [];
    }
  }

  // ---- A table ----

  /** A branch as a table sees it. */
  datatype Event = Event(index: nat, taken: bool)

  ghost predicate InTable(events: seq<Event>, size: nat) {
    forall i | 0 <= i < |events| :: events[i].index < size
  }

  function Fresh(size: nat): (t: seq<nat>)
    ensures |t| == size && forall i | 0 <= i < size :: t[i] == 2
  {
    seq(size, _ => 2)
  }

  /** A new table predicts "taken", and changes its mind after one outcome of the other kind. */
  lemma FreshPredictsTaken(size: nat, i: nat)
    requires i < size
    ensures Predicts(Fresh(size)[i]) && !Predicts(Bumped(Fresh(size)[i], false))
  {
  }

  function Stepped(table: seq<nat>, e: Event): (t: seq<nat>)
    requires e.index < |table|
    ensures |t| == |table|
  {
    table[e.index := Bumped(table[e.index], e.taken)]
  }

  /** The predictions of a table along a run, and the table at its end. */
  function Predictions(table: seq<nat>, events: seq<Event>): (p: seq<bool>)
    requires InTable(events, |table|)
    ensures |p| == |events|
    decreases |events|
  {
    if events == [] then [] else
    [Predicts(table[events[0].index])] + Predictions(Stepped(table, events[0]), events[1..])
  }

  function Final(table: seq<nat>, events: seq<Event>): (t: seq<nat>)
    requires InTable(events, |table|)
    ensures |t| == |table|
    decreases |events|
  {
    if events == [] then table else Final(Stepped(table, events[0]), events[1..])
  }

  /** The error counter of a table at the end of a run. */
  function Errors(table: seq<nat>, events: seq<Event>): nat
    requires InTable(events, |table|)
    decreases |events|
  {
    if events == [] then 0 else
    Miss(table[events[0].index], events[0].taken) + Errors(Stepped(table, events[0]), events[1..])
  }

  lemma {:induction false} CountersInRange(table: seq<nat>, events: seq<Event>, i: nat)
    requires InTable(events, |table|) && i < |table| && forall j | 0 <= j < |table| :: table[j] <= 3
    ensures Final(table, events)[i] <= 3
    decreases |events|
  {
    if events != [] {
      CountersInRange(Stepped(table, events[0]), events[1..], i);
    }
  }

  /** The outcomes that entry i of a table sees. */
  function Outcomes(events: seq<Event>, i: nat): seq<bool> {
    if events == [] then [] else
    (if events[0].index == i then [events[0].taken] else []) + Outcomes(events[1..], i)
  }

  function SumErrors(table: seq<nat>, events: seq<Event>, n: nat): nat
    requires n <= |table|
  {
    if n == 0 then 0 else SumErrors(table, events, n - 1) + EntryErrors(table[n - 1], Outcomes(events, n - 1))
  }

  lemma EntryStep(c: nat, events: seq<Event>, i: nat)
    requires events != []
    ensures
      var e, o := events[0], Outcomes(events[1..], i);
      EntryErrors(c, Outcomes(events, i))
      == if e.index == i then Miss(c, e.taken) + EntryErrors(Bumped(c, e.taken), o) else EntryErrors(c, o)
  {
    var e, o := events[0], Outcomes(events[1..], i);
    assert ([e.taken] + o)[1..] == o && [] + o == o;
  }

  lemma EntryChange(table: seq<nat>, events: seq<Event>, i: nat)
    requires events != [] && events[0].index < |table| && i < |table|
    ensures
      var e, after := events[0], EntryErrors(Stepped(table, events[0])[i], Outcomes(events[1..], i));
      EntryErrors(table[i], Outcomes(events, i)) == after + if e.index == i then Miss(table[i], e.taken) else 0
  {
    hide Outcomes, Bumped, Miss, EntryErrors;
    EntryStep(table[i], events, i);
  }

  lemma {:induction false} SumErrorsStep(table: seq<nat>, events: seq<Event>, n: nat)
    requires events != [] && events[0].index < |table| && n <= |table|
    ensures SumErrors(table, events, n)
         == SumErrors(Stepped(table, events[0]), events[1..], n)
          + (if events[0].index < n then Miss(table[events[0].index], events[0].taken) else 0)
  {
    hide Outcomes, Miss, EntryErrors, Stepped;
    if n > 0 {
      SumErrorsStep(table, events, n - 1);
      EntryChange(table, events, n - 1);
    }
  }

  lemma {:induction false} NoErrors(table: seq<nat>, n: nat)
    requires n <= |table|
    ensures SumErrors(table, [], n) == 0
  {
    if n > 0 {
      NoErrors(table, n - 1);
    }
  }

  /** A table's errors are the errors of its entries. */
  lemma {:induction false} ErrorsByEntry(table: seq<nat>, events: seq<Event>)
    requires InTable(events, |table|)
    ensures Errors(table, events) == SumErrors(table, events, |table|)
    decreases |events|
  {
    if events == [] {
      NoErrors(table, |table|);
    } else {
      ErrorsByEntry(Stepped(table, events[0]), events[1..]);
      SumErrorsStep(table, events, |table|);
    }
  }

  /** For every entry that is touched, one and twice its changes of direction. */
  function Budget(events: seq<Event>, n: nat): nat {
    if n == 0 then 0 else
    var o := Outcomes(events, n - 1);
    Budget(events, n - 1) + (if o == [] then 0 else 1 + 2 * Changes(o))
  }

  lemma {:induction false} FreshSumBound(size: nat, events: seq<Event>, n: nat)
    requires n <= size
    ensures SumErrors(Fresh(size), events, n) <= Budget(events, n)
  {
    if n > 0 {
      FreshSumBound(size, events, n - 1);
      var o := Outcomes(events, n - 1);
      if o != [] {
        EntryBound(2, o);
      }
    }
  }

  /** Over any run the error count of a table is at most the sum, over the entries that are touched, of
      one and twice the changes of direction at that entry. */
  lemma ErrorBound(size: nat, events: seq<Event>)
    requires InTable(events, size)
    ensures Errors(Fresh(size), events) <= Budget(events, size)
  {
    ErrorsByEntry(Fresh(size), events);
    FreshSumBound(size, events, size);
  }

  // ---- Bimodal tables of different sizes ----

  /** A branch: its word address (pc >> 2) and its outcome. */
  datatype Branch = Branch(word: nat, taken: bool)

  /** The index is the address modulo the size, which is a power of two. */
  function BimodalEvents(run: seq<Branch>, size: nat): (events: seq<Event>)
    requires size > 0
    ensures |events| == |run| && InTable(events, size)
    ensures forall i | 0 <= i < |run| :: events[i] == Event(run[i].word % size, run[i].taken)
  {
    seq(|run|, i requires 0 <= i < |run| => Event(run[i].word % size, run[i].taken))
  }

  /** No two branches of the run share an entry of a table of this size. */
  ghost predicate Apart(run: seq<Branch>, size: nat)
    requires size > 0
  {
    forall i, j | 0 <= i < |run| && 0 <= j < |run| :: run[i].word % size == run[j].word % size ==> run[i].word == run[j].word
  }

  lemma ModOfMultiple(w: nat, s: nat, m: nat)
    requires s > 0 && m > 0
    ensures s * m > 0 && (w % (s * m)) % s == w % s
  {
    assert s * m > 0 by { MulLe(1, s, m); }
    var q, r := w / (s * m), w % (s * m);
    assert w == q * (s * m) + r;
    assert q * (s * m) == (q * m) * s;
    assert r == (r / s) * s + r % s;
    assert (q * m + r / s) * s == (q * m) * s + (r / s) * s;
    ModUnique(w, q * m + r / s, r % s, s);
  }

  /** Every branch of the run finds the same counter in both tables. */
  ghost predicate Alike(run: seq<Branch>, small: seq<nat>, large: seq<nat>)
    requires |small| > 0 && |large| > 0
  {
    forall i | 0 <= i < |run| :: small[run[i].word % |small|] == large[run[i].word % |large|]
  }

  /** If the branches of a run are apart in a smaller table, then that table and every larger one make the
      same prediction at every step and end with the same number of errors. */
  lemma {:induction false} LargerTablesAgree(run: seq<Branch>, small: seq<nat>, large: seq<nat>, m: nat)
    requires |small| > 0 && m > 0 && |large| == |small| * m && Apart(run, |small|) && Alike(run, small, large)
    ensures |large| > 0
    ensures Predictions(small, BimodalEvents(run, |small|)) == Predictions(large, BimodalEvents(run, |large|))
    ensures Errors(small, BimodalEvents(run, |small|)) == Errors(large, BimodalEvents(run, |large|))
    decreases |run|
  {
    ModOfMultiple(0, |small|, m);
    if run != [] {
      var e, f := BimodalEvents(run, |small|), BimodalEvents(run, |large|);
      var small', large' := Stepped(small, e[0]), Stepped(large, f[0]);
      forall i | 0 <= i < |run[1..]|
        ensures small'[run[1..][i].word % |small|] == large'[run[1..][i].word % |large|]
      {
        assert run[1..][i] == run[i + 1];
        ModOfMultiple(run[i + 1].word, |small|, m);
        ModOfMultiple(run[0].word, |small|, m);
      }
      assert forall i | 0 <= i < |run[1..]| :: run[1..][i] == run[i + 1];
      LargerTablesAgree(run[1..], small', large', m);
      assert BimodalEvents(run[1..], |small|) == e[1..] && BimodalEvents(run[1..], |large|) == f[1..];
    }
  }

  lemma LargerFreshTablesAgree(run: seq<Branch>, size: nat, m: nat)
    requires size > 0 && m > 0 && Apart(run, size)
    ensures size * m > 0
    ensures Predictions(Fresh(size), BimodalEvents(run, size)) == Predictions(Fresh(size * m), BimodalEvents(run, size * m))
    ensures Errors(Fresh(size), BimodalEvents(run, size)) == Errors(Fresh(size * m), BimodalEvents(run, size * m))
  {
    ModOfMultiple(0, size, m);
    LargerTablesAgree(run, Fresh(size), Fresh(size * m), m);
  }

  // ---- gshare ----

  /** The last 16 outcomes, the latest in the lowest bit. */
  function History(ghr: nat, taken: bool): nat {
    (2 * ghr + (if taken then 1 else 0)) % 0x10000
  }

  function HistoryAfter(run: seq<Branch>): nat {
    if run == [] then 0 else History(HistoryAfter(run[..|run| - 1]), run[|run| - 1].taken)
  }

  lemma HistoryDigit(ghr: nat, taken: bool, k: nat)
    ensures BitOf(History(ghr, taken), k) <==> k < 16 && if k == 0 then taken else BitOf(ghr, k - 1)
  {
    var n := 2 * ghr + (if taken then 1 else 0);
    assert Pow2(16) == 0x10000 by { SixteenDigits(); }
    LowDigits(n, 16, k);
    assert n / 2 == ghr;
  }

  lemma SixteenDigits()
    ensures Pow2(16) == 0x10000
  {
    assert Pow2(4) == 16 && Pow2(8) == 256 && Pow2(12) == 4096;
  }

  /** Digit k of the history is the outcome k places from the end of the run, for the last 16 of them. */
  lemma {:induction false} HistoryIsRecent(run: seq<Branch>, k: nat)
    ensures BitOf(HistoryAfter(run), k) <==> k < 16 && k < |run| && run[|run| - 1 - k].taken
    decreases |run|
  {
    hide History;
    if run == [] {
      ZeroDigits(k);
    } else {
      var before := run[..|run| - 1];
      HistoryDigit(HistoryAfter(before), run[|run| - 1].taken, k);
      if k > 0 {
        HistoryIsRecent(before, k - 1);
      }
    }
  }

  function GshareEvents(run: seq<Branch>, size: nat): (events: seq<Event>)
    requires size > 0
    ensures |events| == |run| && InTable(events, size)
    ensures forall i | 0 <= i < |run| :: events[i] == Event(Xor(run[i].word, HistoryAfter(run[..i])) % size, run[i].taken)
  {
    seq(|run|, i requires 0 <= i < |run| => Event(Xor(run[i].word, HistoryAfter(run[..i])) % size, run[i].taken))
  }

  // ---- The predictors of the simulator ----

  lemma {:induction false} RunGrows(table: seq<nat>, events: seq<Event>, e: Event)
    requires InTable(events, |table|) && e.index < |table|
    ensures InTable(events + [e], |table|)
    ensures Final(table, events + [e]) == Stepped(Final(table, events), e)
    ensures Errors(table, events + [e]) == Errors(table, events) + Miss(Final(table, events)[e.index], e.taken)
    decreases |events|
  {
    if events == [] {
      assert [] + [e] == [e] && [e][1..] == [];
    } else {
      assert (events + [e])[0] == events[0] && (events + [e])[1..] == events[1..] + [e];
      RunGrows(Stepped(table, events[0]), events[1..], e);
    }
  }

  /** One table with its error counter; `events` is what it has seen. */
  class Table {
    const counters: array<nat>
    var errors: nat
    ghost var events: seq<Event>

    ghost predicate Valid()
      reads this, counters
    {
      && InTable(events, counters.Length)
      && counters[..] == Final(Fresh(counters.Length), events)
      && errors == Errors(Fresh(counters.Length), events)
    }

    constructor (size: nat)
      ensures Valid() && counters.Length == size && events == [] && fresh(counters)
    {
      counters := new nat[size](_ => 2);
      errors, events := 0, [];
      new;
      assert counters[..] == Fresh(size);
    }

    /** Predict, count a miss, and move the counter towards the outcome. */
    method Observe(index: nat, taken: bool) returns (predicted: bool)
      requires Valid() && index < counters.Length
      modifies this, counters
      ensures Valid() && events == old(events) + [Event(index, taken)]
      ensures predicted == Predicts(Final(Fresh(counters.Length), old(events))[index])
    {
      RunGrows(Fresh(counters.Length), events, Event(index, taken));
      hide Final, Errors, Fresh;
      predicted := counters[index] >= 2;
      if predicted != taken {
        errors := errors + 1;
      }
      ghost var was := counters[..];
      if taken {
        if counters[index] < 3 {
          counters[index] := counters[index] + 1;
        }
      } else {
        if counters[index] > 0 {
          counters[index] := counters[index] - 1;
        }
      }
      assert counters[..] == Stepped(was, Event(index, taken));
      events := events + [Event(index, taken)];
    }
  }

  lemma EventsGrow(run: seq<Branch>, size: nat, i: nat)
    requires size > 0 && i < |run|
    ensures BimodalEvents(run[..i + 1], size) == BimodalEvents(run[..i], size) + [Event(run[i].word % size, run[i].taken)]
    ensures GshareEvents(run[..i + 1], size)
         == GshareEvents(run[..i], size) + [Event(Xor(run[i].word, HistoryAfter(run[..i])) % size, run[i].taken)]
    ensures HistoryAfter(run[..i + 1]) == History(HistoryAfter(run[..i]), run[i].taken)
  {
    hide Xor, History, HistoryAfter, BimodalEvents, GshareEvents;
    var longer, e := run[..i + 1], Event(run[i].word % size, run[i].taken);
    assert longer[..i] == run[..i] && longer[i] == run[i];
    HistoryGrows(longer);
    assert BimodalEvents(longer, size) == BimodalEvents(run[..i], size) + [e];
    GshareGrows(longer, size);
  }

  lemma HistoryGrows(run: seq<Branch>)
    requires run != []
    ensures HistoryAfter(run) == History(HistoryAfter(run[..|run| - 1]), run[|run| - 1].taken)
  {
    hide History;
  }

  lemma GshareGrows(run: seq<Branch>, size: nat)
    requires size > 0 && run != []
    ensures var n := |run| - 1;
      GshareEvents(run, size) == GshareEvents(run[..n], size) + [Event(Xor(run[n].word, HistoryAfter(run[..n])) % size, run[n].taken)]
  {
    hide Xor, HistoryAfter;
    var n := |run| - 1;
    var a, b := GshareEvents(run, size), GshareEvents(run[..n], size);
    forall j | 0 <= j < n ensures a[j] == b[j] {
      assert run[..n][..j] == run[..j];
    }
  }

  /** The tables of one size along a run of branches. The counters end with what the definitions say, and
      both are within the bound that the directions at their entries set. */
  method RunTables(run: seq<Branch>, size: nat) returns (bimodalErrors: nat, gshareErrors: nat)
    requires size > 0
    ensures bimodalErrors == Errors(Fresh(size), BimodalEvents(run, size)) <= Budget(BimodalEvents(run, size), size)
    ensures gshareErrors == Errors(Fresh(size), GshareEvents(run, size)) <= Budget(GshareEvents(run, size), size)
  {
    ErrorBound(size, BimodalEvents(run, size));
    ErrorBound(size, GshareEvents(run, size));
    hide Xor, Errors, Fresh, Final, History, Budget;
    var bimodal := new Table(size);
    var gshare := new Table(size);
    var ghr := 0;
    for i := 0 to |run|
      invariant fresh(bimodal) && fresh(bimodal.counters) && fresh(gshare) && fresh(gshare.counters)
      invariant bimodal != gshare && bimodal.counters != gshare.counters
      invariant bimodal.counters.Length == gshare.counters.Length == size
      invariant bimodal.Valid() && bimodal.events == BimodalEvents(run[..i], size)
      invariant gshare.Valid() && gshare.events == GshareEvents(run[..i], size)
      invariant ghr == HistoryAfter(run[..i])
    {
      EventsGrow(run, size, i);
      var p := bimodal.Observe(run[i].word % size, run[i].taken);
      var g := gshare.Observe(Xor(run[i].word, ghr) % size, run[i].taken);
      ghr := History(ghr, run[i].taken);
    }
    assert run[..|run|] == run;
    bimodalErrors, gshareErrors := bimodal.errors, gshare.errors;
  }
}
