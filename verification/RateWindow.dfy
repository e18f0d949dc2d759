/** The authoritative per-destination send-rate window. */
module RateWindow {
  import opened Tables

  const RATE_WINDOW_MS: nat := 60 * 1000
  const MAX_SENDS_PER_DEST_PER_WINDOW: nat := 120

  /** When the current window opened and how many sends it has admitted. */
  datatype Window = Window(start: nat, count: nat)

  function Admit(entry: Option<Window>, now: nat): (r: (Window, bool))
  {
    var w := match entry case None => Window(now, 0) case Some(w) => w;
    if SatSub(now, w.start) > RATE_WINDOW_MS then (Window(now, 1), true)
    else if w.count >= MAX_SENDS_PER_DEST_PER_WINDOW then (w, false)
    else (Window(w.start, w.count + 1), true)
  }

  class SendRates {
    var windows: map<string, Window>

    constructor ()
      ensures windows == map[]
    {
      windows := map[];
    }

    method AllowDestSend(to: string, now: nat) returns (ok: bool)
      modifies this
      ensures ok == Admit(Get(old(windows), to), now).1
      ensures windows == old(windows)[to := Admit(Get(old(windows), to), now).0]
    {
      if to !in windows { windows := windows[to := Window(now, 0)]; }
      var w := windows[to];
      if SatSub(now, w.start) > RATE_WINDOW_MS {
        windows := windows[to := Window(now, 1)];
        return true;
      }
      if w.count >= MAX_SENDS_PER_DEST_PER_WINDOW {
        return false;
      }
      windows := windows[to := Window(w.start, w.count + 1)];
      return true;
    }
  }

  predicate Nondecreasing(times: seq<nat>) {
    forall i, j :: 0 <= i < j < |times| ==> times[i] <= times[j]
  }

  /** The entry after sends at `times`. */
  function After(entry: Option<Window>, times: seq<nat>): Option<Window>
    decreases |times|
  {
    if times == [] then entry else After(Some(Admit(entry, times[0]).0), times[1..])
  }

  /** How many of the sends at `times` are admitted in the closed interval `from..to`. */
  function Admitted(entry: Option<Window>, times: seq<nat>, from: nat, to: nat): nat
    decreases |times|
  {
    if times == [] then 0 else
      var (w, ok) := Admit(entry, times[0]);
      (if ok && from <= times[0] <= to then 1 else 0) + Admitted(Some(w), times[1..], from, to)
  }

  /** How many windows can open in `from..to` when openings lie more than a window apart. */
  function Openings(from: nat, to: nat): nat {
    if from > to then 0 else (to - from) / (RATE_WINDOW_MS + 1) + 1
  }

  lemma OpeningUsesOne(from: nat, t: nat, to: nat)
    requires from <= t <= to
    ensures Openings(t + RATE_WINDOW_MS + 1, to) + 1 <= Openings(from, to)
  {
    var w := RATE_WINDOW_MS + 1;
    if t + w <= to {
      assert (to - t - w) / w + 1 == (to - t) / w;
    }
    assert (to - t) / w <= (to - from) / w;
  }

  lemma OpeningsInInterval(from: nat, n: nat)
    requires 1 <= n
    ensures Openings(from, from + n * RATE_WINDOW_MS) <= n
  {
    QuotientBelow(n * RATE_WINDOW_MS, RATE_WINDOW_MS + 1, n);
  }

  lemma QuotientBelow(x: nat, w: nat, n: nat)
    requires 1 <= w && x < n * w
    ensures x / w < n
  {
  }

  /** From inside the interval on: what is left of the open window, plus a full window for each
      opening still possible. */
  lemma {:induction false} AdmittedFrom(w: Window, times: seq<nat>, from: nat, to: nat)
    requires Nondecreasing(times) && w.count <= MAX_SENDS_PER_DEST_PER_WINDOW
    requires times != [] ==> from <= times[0]
    ensures Admitted(Some(w), times, from, to) <= MAX_SENDS_PER_DEST_PER_WINDOW - w.count
              + MAX_SENDS_PER_DEST_PER_WINDOW * Openings(Max(from, w.start + RATE_WINDOW_MS + 1), to)
    decreases |times|
  {
    if times != [] {
      var t, w' := times[0], Admit(Some(w), times[0]).0;
      AdmittedFrom(w', times[1..], from, to);
      if t - w.start > RATE_WINDOW_MS && t <= to {
        OpeningUsesOne(Max(from, w.start + RATE_WINDOW_MS + 1), t, to);
      }
      if t > to {
        NoneAfter(Some(w), times, from, to);
      }
    }
  }

  lemma {:induction false} NoneAfter(entry: Option<Window>, times: seq<nat>, from: nat, to: nat)
    requires forall i :: 0 <= i < |times| ==> to < times[i]
    ensures Admitted(entry, times, from, to) == 0
    decreases |times|
  {
    if times != [] { NoneAfter(Some(Admit(entry, times[0]).0), times[1..], from, to); }
  }

  /** No more windows open in a part of the interval. */
  lemma OpeningsAtMost(from: nat, n: nat, lo: nat)
    requires from <= lo && 1 <= n
    ensures Openings(lo, from + n * RATE_WINDOW_MS) <= n
  {
    var to := from + n * RATE_WINDOW_MS;
    OpeningsInInterval(from, n);
    if lo <= to {
      assert (to - lo) / (RATE_WINDOW_MS + 1) <= (to - from) / (RATE_WINDOW_MS + 1);
    }
  }

  /** Any closed interval of `n` minutes admits at most `n + 1` times 120 sends, whatever the sends do,
      while the destination's entry is not removed. */
  lemma {:induction false} RateBound(entry: Option<Window>, times: seq<nat>, from: nat, n: nat)
    requires Nondecreasing(times) && 1 <= n
    requires entry.Some? ==> entry.value.count <= 120
    ensures Admitted(entry, times, from, from + n * 60_000) <= (n + 1) * 120
    decreases |times|
  {
    var to := from + n * RATE_WINDOW_MS;
    if times != [] {
      if times[0] < from {
        RateBound(Some(Admit(entry, times[0]).0), times[1..], from, n);
      } else {
        var w := match entry case None => Window(times[0], 0) case Some(w) => w;
        assert Admit(entry, times[0]) == Admit(Some(w), times[0]);
        AdmittedFrom(w, times, from, to);
        OpeningsAtMost(from, n, Max(from, w.start + RATE_WINDOW_MS + 1));
        hide Openings;
      }
    }
  }

  /** An open window's count is the number of sends it really admitted since it opened. */
  lemma {:induction false} CountIsAdmitted(entry: Option<Window>, times: seq<nat>, to: nat)
    requires times != [] && Nondecreasing(times) && times[|times| - 1] <= to
    requires entry.Some? ==> entry.value.start <= times[0]
    ensures After(entry, times).Some?
    ensures var w := After(entry, times).value;
            && w.count <= Admitted(entry, times, w.start, to)
                          + (if entry.Some? && entry.value.start == w.start then entry.value.count else 0)
            && w.start <= times[|times| - 1]
    decreases |times|
  {
    var w := Admit(entry, times[0]).0;
    if |times| > 1 {
      assert times[1..][|times| - 2] == times[|times| - 1];
      CountIsAdmitted(Some(w), times[1..], to);
    } else {
      assert times[1..] == [];
    }
  }

  /** A refused send means the destination really received 120 sends within the last minute. */
  lemma RefusedOnlyWhenFull(times: seq<nat>, now: nat)
    requires Nondecreasing(times + [now])
    requires !Admit(After(None, times), now).1
    ensures Admitted(None, times, SatSub(now, 60_000), now) >= 120
  {
    assert times != [];
    assert forall i :: 0 <= i < |times| ==> (times + [now])[i] == times[i];
    assert (times + [now])[|times|] == now;
    CountIsAdmitted(None, times, now);
    WiderInterval(None, times, SatSub(now, RATE_WINDOW_MS), After(None, times).value.start, now);
  }

  lemma {:induction false} WiderInterval(entry: Option<Window>, times: seq<nat>, from: nat, from': nat, to: nat)
    requires from <= from'
    ensures Admitted(entry, times, from', to) <= Admitted(entry, times, from, to)
    decreases |times|
  {
    if times != [] { WiderInterval(Some(Admit(entry, times[0]).0), times[1..], from, from', to); }
  }
}
