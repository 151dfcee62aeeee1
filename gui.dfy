/** The parts of `antenati_gui.py` with logic of their own: the progress
    counter the download reports to, the flag that marks a download as over,
    and the checks of the two text fields before a download starts. */
module Gui {
  import opened Wrappers

  // ---------------------------------------------------------------------
  // _ProgressBarSetter
  // ---------------------------------------------------------------------

  /** What `_ProgressBarSetter` keeps: the expected number of items, the
      number reported done, the value shown by the bar, and the values handed
      to Tk with `after(0, ...)` to be shown later, oldest first. */
  datatype BarState = BarState(total: int, n: int, value: real, scheduled: seq<real>)

  /** A fresh setter: both counters are 0 and the bar is empty. */
  const Initial := BarState(0, 0, 0.0, [])

  /** The calls a setter receives. */
  datatype Call = SetTotalCall(t: int) | UpdateCall | ResetCall

  /** `100 * n / total`, a true division, computed exactly. */
  function Percent(n: int, total: int): real
    requires total != 0
  {
    100.0 * (n as real) / (total as real)
  }

  /** One call.  An update counts the item before dividing, so an update with
      no total still counts it, then raises ZeroDivisionError and schedules
      nothing. */
  function Apply(s: BarState, c: Call): BarState {
    match c
    case SetTotalCall(t) => s.(total := t)
    case UpdateCall =>
      if s.total == 0 then s.(n := s.n + 1)
      else s.(n := s.n + 1, scheduled := s.scheduled + [Percent(s.n + 1, s.total)])
    case ResetCall => s.(total := 0, n := 0, value := 0.0)
  }

  function ApplyAll(s: BarState, calls: seq<Call>): BarState
    decreases |calls|
  {
    if |calls| == 0 then s else ApplyAll(Apply(s, calls[0]), calls[1..])
  }

  function Updates(k: nat): (r: seq<Call>)
    ensures |r| == k && forall i :: 0 <= i < k ==> r[i] == UpdateCall
  {
    seq(k, _ => UpdateCall)
  }

  /** The values `k` updates report, starting from `n0` items done. */
  function Reports(n0: int, total: int, k: nat): (r: seq<real>)
    requires total != 0
    ensures |r| == k
  {
    seq(k, i => Percent(n0 + i + 1, total))
  }

  lemma {:induction false} UpdatesStep(s: BarState, k: nat)
    requires s.total != 0
    ensures ApplyAll(s, Updates(k)) == s.(n := s.n + k, scheduled := s.scheduled + Reports(s.n, s.total, k))
    decreases k
  {
    if k == 0 {
      assert s.scheduled + [] == s.scheduled;
    } else {
      var s' := Apply(s, UpdateCall);
      assert Updates(k)[1..] == Updates(k - 1);
      UpdatesStep(s', k - 1);
      var rs := Reports(s.n, s.total, k);
      assert rs == [Percent(s.n + 1, s.total)] + Reports(s.n + 1, s.total, k - 1);
      assert s.scheduled + [Percent(s.n + 1, s.total)] + Reports(s.n + 1, s.total, k - 1) == s.scheduled + rs;
    }
  }

  /** `set_total(t)` followed by `k` updates: the total is `t`, `n` grew by
      exactly `k`, and the `i`-th update reported `100 * (n0 + i) / t`. */
  lemma UpdatesAfterSetTotal(s: BarState, t: int, k: nat)
    requires t != 0
    ensures ApplyAll(s, [SetTotalCall(t)] + Updates(k)) ==
      BarState(t, s.n + k, s.value, s.scheduled + Reports(s.n, t, k))
  {
    var calls := [SetTotalCall(t)] + Updates(k);
    assert calls[0] == SetTotalCall(t) && calls[1..] == Updates(k);
    UpdatesStep(s.(total := t), k);
  }

  lemma PercentAtMost100(n: int, total: int)
    requires 0 < total && 0 <= n <= total
    ensures 0.0 <= Percent(n, total) <= 100.0
    ensures n == total ==> Percent(n, total) == 100.0
  {
    var p, t := Percent(n, total), total as real;
    assert p * t == 100.0 * (n as real);
    assert (100.0 - p) * t == 100.0 * (t - n as real);
    if n == total {
      assert (100.0 - p) * t == 0.0;
    }
  }

  lemma PercentIncreasing(m: int, n: int, total: int)
    requires 0 < total && m < n
    ensures Percent(m, total) < Percent(n, total)
  {
    assert Percent(m, total) * (total as real) == 100.0 * (m as real);
    assert Percent(n, total) * (total as real) == 100.0 * (n as real);
  }

  /** From a fresh or reset setter: after `set_total(t)` and `k` updates,
      `n == k`, the last value reported is `100 * k / t`, the reports grow
      strictly, and none exceeds 100 while `k <= t`. */
  lemma CountFromZero(s: BarState, t: int, k: nat)
    requires s.n == 0 && t != 0 && k > 0
    ensures var s' := ApplyAll(s, [SetTotalCall(t)] + Updates(k));
      && s'.n == k && s'.total == t
      && |s'.scheduled| == |s.scheduled| + k
      && s'.scheduled[|s'.scheduled| - 1] == Percent(k, t)
      && (0 < t ==> forall i, j :: |s.scheduled| <= i < j < |s'.scheduled| ==> s'.scheduled[i] < s'.scheduled[j])
      && (0 < t && k <= t ==> forall i :: |s.scheduled| <= i < |s'.scheduled| ==> 0.0 <= s'.scheduled[i] <= 100.0)
  {
    UpdatesAfterSetTotal(s, t, k);
    var s' := ApplyAll(s, [SetTotalCall(t)] + Updates(k));
    var base := |s.scheduled|;
    var rs := Reports(0, t, k);
    assert s'.scheduled == s.scheduled + rs;
    assert s'.scheduled[base + k - 1] == rs[k - 1];
    if 0 < t {
      forall i, j | base <= i < j < |s'.scheduled| ensures s'.scheduled[i] < s'.scheduled[j] {
        assert s'.scheduled[i] == rs[i - base] && s'.scheduled[j] == rs[j - base];
        PercentIncreasing(i - base + 1, j - base + 1, t);
      }
      if k <= t {
        forall i | base <= i < |s'.scheduled| ensures 0.0 <= s'.scheduled[i] <= 100.0 {
          assert s'.scheduled[i] == rs[i - base];
          PercentAtMost100(i - base + 1, t);
        }
      }
    }
  }

  /** A reset after any calls clears both counters and the bar, and keeps
      the values still queued for Tk. */
  lemma ResetClears(s: BarState, calls: seq<Call>)
    ensures var s' := ApplyAll(s, calls + [ResetCall]);
      s'.total == 0 && s'.n == 0 && s'.value == 0.0 && s'.scheduled == ApplyAll(s, calls).scheduled
  {
    ApplyAllAppend(s, calls, [ResetCall]);
  }

  lemma {:induction false} ApplyAllAppend(s: BarState, a: seq<Call>, b: seq<Call>)
    ensures ApplyAll(s, a + b) == ApplyAll(ApplyAll(s, a), b)
    decreases |a|
  {
    if |a| == 0 {
      assert a + b == b;
    } else {
      assert (a + b)[0] == a[0] && (a + b)[1..] == a[1..] + b;
      ApplyAllAppend(Apply(s, a[0]), a[1..], b);
    }
  }

  class ProgressBarSetter {
    var total: int
    var n: int
    /** `progress_bar['value']`. */
    var value: real
    /** The values passed to `progress_bar.master.after(0, ...)`. */
    var scheduled: seq<real>

    function State(): BarState
      reads this
    {
      BarState(total, n, value, scheduled)
    }

    constructor ()
      ensures State() == Initial
    {
      total, n, value, scheduled := 0, 0, 0.0, [];
    }

    method SetTotal(t: int)
      modifies this
      ensures State() == Apply(old(State()), SetTotalCall(t))
    {
      total := t;
    }

    /** The private `__set`. */
    method SetValue(v: real)
      modifies this
      ensures State() == old(State()).(value := v)
    {
      value := v;
    }

    method Reset()
      modifies this
      ensures State() == Apply(old(State()), ResetCall)
    {
      total := 0;
      n := 0;
      SetValue(0.0);
    }

    method Update() returns (err: Option<Error>)
      modifies this
      ensures State() == Apply(old(State()), UpdateCall)
      ensures err == if old(total) == 0 then Some(ZeroDivisionError) else None
    {
      n := n + 1;
      if total == 0 {
        return Some(ZeroDivisionError);
      }
      var percentCompleted := Percent(n, total);
      scheduled := scheduled + [percentCompleted];
      err := None;
    }
  }

  // ---------------------------------------------------------------------
  // _CompletedFlag
  // ---------------------------------------------------------------------

  /** How the body of a `with` block ended. */
  datatype Exit<T> = Returned(value: T) | Raised(message: string)

  class CompletedFlag {
    /** The wrapped `tk.BooleanVar`. */
    var variable: bool

    constructor (v: bool)
      ensures variable == v
    {
      variable := v;
    }

    /** `with flag.set_at_exit(): body`: the variable is set however the body
        ended, and the body's result or exception passes through unchanged. */
    method SetAtExit<T>(body: Exit<T>) returns (r: Exit<T>)
      modifies this
      ensures variable && r == body
    {
      variable := true;
      r := body;
    }
  }

  // ---------------------------------------------------------------------
  // _Window.__download: the input checks
  // ---------------------------------------------------------------------

  const UrlMessage := "Please enter a valid URL."
  const PathMessage := "Please enter a valid destination folder."

  /** The `RuntimeError` the two checks raise, if any: the URL is checked
      first, so an empty URL is reported whatever the path. */
  function CheckDownloadInputs(url: string, path: string): (r: Option<string>)
    ensures r == Some(UrlMessage) <==> |url| == 0
    ensures r == Some(PathMessage) <==> |url| != 0 && |path| == 0
    ensures r == None <==> |url| != 0 && |path| != 0
  {
    if |url| == 0 then Some(UrlMessage)
    else if |path| == 0 then Some(PathMessage)
    else None
  }
}
