/**
 * The browser's proximity alerts: for every watched matter, the pre-alert window
 * of items leading up to it, the status shown on its tile, and the notification
 * raised once per court and item in progress. The set of already-notified keys
 * lives in the page and is emptied when the user saves a new watch list.
 */
module ProximityEngine {
  import opened Wrappers
  import opened Strings
  import opened Seqs
  import opened Matters
  import opened BoardNormalizer

  // ---------------------------------------------------------------------------
  // The pre-alert window

  /**
   * `preAlertWindow`: when the target is listed, the (at most) `n` items listed
   * before its first occurrence and the target itself; otherwise the numbers from
   * `max(1, target - n)` up to the target.
   */
  function Window(s: seq<int>, target: int, n: int): seq<int>
  {
    var idx := IndexOf(s, target);
    if idx >= 0 then
      var start := Max(0, idx - n);
      if start <= idx then s[start..idx + 1] else []
    else Up(Max(1, target - n), target)
  }

  /**
   * A non-empty window ends at the target, which occurs nowhere before it; it holds
   * at most `n + 1` items, is non-empty for a listed target, and counts up from
   * `max(1, target - n)` for an unlisted one.
   */
  lemma WindowShape(s: seq<int>, target: int, n: int)
    ensures var r := Window(s, target, n);
      && (r != [] ==> r[|r| - 1] == target && target !in r[..|r| - 1])
      && (n >= 0 ==> |r| <= n + 1)
      && (target in s && n >= 0 ==> r != [])
      && (target !in s ==> forall k :: 0 <= k < |r| ==> r[k] == Max(1, target - n) + k)
  {
    var idx := IndexOf(s, target);
    var r := Window(s, target, n);
    if idx >= 0 {
      var start := Max(0, idx - n);
      if start <= idx {
        assert r == s[start..idx + 1];
        assert r[..|r| - 1] == s[start..idx];
        assert forall x :: x in s[start..idx] ==> x in s[..idx];
      }
    } else {
      var lo := Max(1, target - n);
      assert r == Up(lo, target);
      if r != [] {
        assert r[|r| - 1] == target;
        var p := r[..|r| - 1];
        assert forall k :: 0 <= k < |p| ==> p[k] < target;
      }
    }
  }

  /** A listed target's window is the stretch of the list that ends at its first occurrence, `n` items long or up to the list's head. */
  lemma WindowOfListed(s: seq<int>, target: int, n: int)
    requires target in s && n >= 0
    ensures var idx := IndexOf(s, target);
      Window(s, target, n) == s[Max(0, idx - n)..idx + 1] && |Window(s, target, n)| == Min(n, idx) + 1
  {
  }

  /** An unlisted target's window counts up to it from `max(1, target - n)`; it is empty for a target below 1. */
  lemma WindowOfUnlisted(s: seq<int>, target: int, n: int)
    requires target !in s
    ensures Window(s, target, n) == Up(Max(1, target - n), target)
    ensures |Window(s, target, n)| == if Max(1, target - n) <= target then target - Max(1, target - n) + 1 else 0
    ensures target < 1 ==> Window(s, target, n) == []
  {
  }

  /** `preAlertWindow`, with the counting loop of its fallback. */
  method PreAlertWindow(s: seq<int>, target: int, n: int) returns (r: seq<int>)
    ensures r == Window(s, target, n)
  {
    var idx := IndexOf(s, target);
    if idx >= 0 {
      var start := Max(0, idx - n);
      if start <= idx {
        r := s[start..idx + 1];
      } else {
        r := [];
      }
      return;
    }
    var start := Max(1, target - n);
    r := [];
    var v := start;
    while v <= target
      invariant start <= v && (v <= target + 1 || v == start)
      invariant r == Up(start, v - 1)
      decreases target - v
    {
      UpExtend(start, v);
      r := r + [v];
      v := v + 1;
    }
  }

  lemma UpExtend(lo: int, hi: int)
    requires lo <= hi
    ensures Up(lo, hi) == Up(lo, hi - 1) + [hi]
  {
    var a, b := Up(lo, hi), Up(lo, hi - 1) + [hi];
    assert |a| == |b|;
    forall k | 0 <= k < |a| ensures a[k] == b[k] {
      if k < |a| - 1 {
        assert b[k] == Up(lo, hi - 1)[k];
      }
    }
  }

  // ---------------------------------------------------------------------------
  // Status of a watched matter

  /** What a matter's tile shows. */
  datatype Status =
    | Waiting                 // the court has no item in progress
    | InWindow(distance: int) // the item in progress is in the window, `distance` items before the target
    | Ahead(distance: int)    // both are listed but the item in progress is outside the window
    | TargetNotListed         // outside the window and the target is not in the list
    | OutsideWindow           // outside the window and the item in progress is not in the list

  /** The tile's text: "Waiting for session" exactly for an idle court, "Now" exactly for a distance of 0. */
  function StatusText(st: Status): (r: string)
    ensures r == "Waiting for session" <==> st.Waiting?
    ensures r == "Now" <==> (st.InWindow? || st.Ahead?) && st.distance == 0
  {
    match st
    case Waiting => "Waiting for session"
    case InWindow(d) => DistanceText(d)
    case Ahead(d) => DistanceText(d)
    case TargetNotListed => "Target not in declared sequence"
    case OutsideWindow => "In session (outside window)"
  }

  /** "Now" for a distance of 0, else the distance followed by " away". */
  function DistanceText(d: int): (r: string)
    ensures r == "Now" <==> d == 0
    ensures d != 0 ==> |r| > 5 && r[|r| - 5..] == " away"
  {
    if d == 0 then "Now" else IntToString(d) + " away"
  }

  /** The distance can be read back from its text. */
  lemma DistanceTextReadsBack(d: int)
    requires d != 0
    ensures ParseInt(DistanceText(d)) == Some(d)
  {
    ParseIntLeading(d, " away");
  }

  /** The item in progress of a court on the board; None when the court is absent or idle. */
  function CurrentOf(courts: map<string, CourtRecord>, court: string): Option<int> {
    if court in courts then courts[court].current else None
  }

  /** The declared sequence of a court on the board; empty when the court is absent. */
  function SequenceOf(courts: map<string, CourtRecord>, court: string): seq<int> {
    if court in courts then courts[court].sequence else []
  }

  /**
   * The status for the item in progress, the court's list, the target and its
   * window: each status holds exactly in its own case, and the distances count
   * the items still to come.
   */
  function Classify(current: Option<int>, s: seq<int>, item: int, w: seq<int>): (r: Status)
  {
    if current.None? then Waiting
    else
      var i := IndexOf(w, current.value);
      if i >= 0 then InWindow(|w| - i - 1)
      else
        var it, ic := IndexOf(s, item), IndexOf(s, current.value);
        if it >= 0 && ic >= 0 then Ahead(Max(0, it - ic))
        else if it < 0 then TargetNotListed
        else OutsideWindow
  }

  /** The status of matter `m` on the board, with `n` items of warning. */
  function Assess(m: Matter, courts: map<string, CourtRecord>, n: int): (r: Status)
  {
    var s := SequenceOf(courts, m.court);
    Classify(CurrentOf(courts, m.court), s, m.item, Window(s, m.item, n))
  }

  /**
   * The status of a matter on the board holds exactly in its own case: idle court,
   * item in progress inside the window (the distance counting the items still to
   * come), both listed, target unlisted, or item in progress unlisted.
   */
  lemma AssessCases(m: Matter, courts: map<string, CourtRecord>, n: int)
    ensures var r, c, s := Assess(m, courts, n), CurrentOf(courts, m.court), SequenceOf(courts, m.court);
      var w := Window(s, m.item, n);
      && (r.Waiting? <==> c.None?)
      && (r.InWindow? <==> c.Some? && c.value in w)
      && (r.InWindow? ==> r.distance == |w| - IndexOf(w, c.value) - 1)
      && (r.Ahead? <==> c.Some? && c.value !in w && m.item in s && c.value in s)
      && (r.Ahead? ==> r.distance == Max(0, IndexOf(s, m.item) - IndexOf(s, c.value)))
      && (r.TargetNotListed? <==> c.Some? && c.value !in w && m.item !in s)
      && (r.OutsideWindow? <==> c.Some? && c.value !in w && m.item in s && c.value !in s)
  {
    var s := SequenceOf(courts, m.court);
    assert Assess(m, courts, n) == Classify(CurrentOf(courts, m.court), s, m.item, Window(s, m.item, n));
  }

  /** A court missing from the board, or without an item in progress, leaves its matters waiting. */
  lemma AssessIdle(m: Matter, courts: map<string, CourtRecord>, n: int)
    requires m.court !in courts || courts[m.court].current.None?
    ensures Assess(m, courts, n) == Waiting
    ensures DueKey(m, courts, n).None?
  {
    assert CurrentOf(courts, m.court).None?;
  }

  /**
   * In the window, the distance counts the items still to come before the target:
   * it is at most `n`, the item in progress sits that many places before the end
   * of the window, and it is 0 exactly when the target itself is in progress.
   */
  lemma InWindowDistance(m: Matter, courts: map<string, CourtRecord>, n: int)
    requires CurrentOf(courts, m.court).Some?
    requires CurrentOf(courts, m.court).value in Window(SequenceOf(courts, m.court), m.item, n)
    ensures Assess(m, courts, n).InWindow?
    ensures var d := Assess(m, courts, n).distance;
      var w := Window(SequenceOf(courts, m.court), m.item, n);
      && 0 <= d < |w|
      && w[|w| - 1 - d] == CurrentOf(courts, m.court).value
      && (n >= 0 ==> d <= n)
      && (d == 0 <==> CurrentOf(courts, m.court).value == m.item)
  {
    var w := Window(SequenceOf(courts, m.court), m.item, n);
    var c := CurrentOf(courts, m.court).value;
    var i := IndexOf(w, c);
    if c == m.item {
      assert i == |w| - 1;
    } else {
      assert i < |w| - 1;
    }
  }

  /**
   * Outside the window with both listed, a non-zero distance is more than `n`
   * items, and a distance of 0 means the item in progress is listed after the
   * target: the tile then reads "Now" although the target has been passed.
   */
  lemma AheadDistance(m: Matter, courts: map<string, CourtRecord>, n: int)
    requires n >= 0 && Assess(m, courts, n).Ahead?
    ensures var d := Assess(m, courts, n).distance;
      var s := SequenceOf(courts, m.court);
      var c := CurrentOf(courts, m.court).value;
      && c != m.item
      && (d > 0 ==> d > n && d == IndexOf(s, m.item) - IndexOf(s, c))
      && (d == 0 <==> IndexOf(s, c) > IndexOf(s, m.item))
  {
    AssessCases(m, courts, n);
    AheadIndices(SequenceOf(courts, m.court), m.item, CurrentOf(courts, m.court).value, n);
  }

  /** Both listed, the item in progress outside the window: it is listed after the target or more than `n` before it. */
  lemma AheadIndices(s: seq<int>, item: int, c: int, n: int)
    requires n >= 0 && item in s && c in s && c !in Window(s, item, n)
    ensures var it, ic := IndexOf(s, item), IndexOf(s, c);
      c != item && it != ic && (ic < it ==> it - ic > n)
  {
    var w := Window(s, item, n);
    var it, ic := IndexOf(s, item), IndexOf(s, c);
    WindowOfListed(s, item, n);
    var start := Max(0, it - n);
    assert w[|w| - 1] == item;
    assert s[it] == item && s[ic] == c;
    assert forall j :: start <= j <= it ==> w[j - start] == s[j];
  }

  /** Items 10 to 14 listed, 13 in progress, 14 watched, 5 items of warning: the tile reads "1 away". */
  lemma OneAwayExample()
    ensures var rec := CourtRecord("1", "", Some(13), "", "", [10, 11, 12, 13, 14], "", "", "");
      var st := Assess(Matter("1", 14), map["1" := rec], 5);
      st == InWindow(1) && StatusText(st) == "1 away"
  {
    var rec := CourtRecord("1", "", Some(13), "", "", [10, 11, 12, 13, 14], "", "", "");
    ExampleAssess(rec);
    ExampleText();
  }

  lemma ExampleAssess(rec: CourtRecord)
    requires rec.current == Some(13) && rec.sequence == [10, 11, 12, 13, 14]
    ensures Assess(Matter("1", 14), map["1" := rec], 5) == InWindow(1)
  {
    var courts := map["1" := rec];
    assert CurrentOf(courts, "1") == Some(13);
    assert SequenceOf(courts, "1") == [10, 11, 12, 13, 14];
    ExampleWindow();
    ExampleClassify();
  }

  lemma ExampleText()
    ensures StatusText(InWindow(1)) == "1 away"
  {
    assert IntToString(1) == "1";
  }

  lemma ExampleClassify()
    ensures Classify(Some(13), [10, 11, 12, 13, 14], 14, [10, 11, 12, 13, 14]) == InWindow(1)
  {
    var s := [10, 11, 12, 13, 14];
    assert IndexOf(s, 13) == 3 by {
      assert s[3] == 13 && 13 !in s[..3];
    }
  }

  lemma ExampleWindow()
    ensures Window([10, 11, 12, 13, 14], 14, 5) == [10, 11, 12, 13, 14]
  {
    var s := [10, 11, 12, 13, 14];
    assert IndexOf(s, 14) == 4 by {
      assert s[4] == 14 && 14 !in s[..4];
    }
    assert s[0..5] == s;
  }

  // ---------------------------------------------------------------------------
  // Notifications

  /** A notification, with the key that stops it from being raised twice. */
  datatype Alert = Alert(key: string, title: string, body: string)

  /** The key of a court and item in progress: one notification per pair. */
  function FiredKey(court: string, current: int): string {
    court + "-" + IntToString(current)
  }

  /** The key of the notification matter `m` calls for on this board: present exactly when its status is in the window. */
  function DueKey(m: Matter, courts: map<string, CourtRecord>, n: int): (r: Option<string>)
    ensures r.Some? <==> Assess(m, courts, n).InWindow?
  {
    if Assess(m, courts, n).InWindow? then Some(FiredKey(m.court, CurrentOf(courts, m.court).value)) else None
  }

  /** The court and the item in progress can be read back from the key, so distinct pairs have distinct keys. */
  lemma FiredKeyReadsBack(court: string, current: int)
    ensures var r := FiredKey(court, current);
      && |court| < |r| && r[..|court|] == court && r[|court|] == '-'
      && ParseInt(r[|court| + 1..]) == Some(current)
  {
    var r := FiredKey(court, current);
    var t := IntToString(current);
    assert r == court + "-" + t;
    assert r[|court| + 1..] == t && t + [] == t;
    ParseIntLeading(current, []);
  }

  /**
   * The notification for matter `m`, whose court is in session with item `current`:
   * it carries the court and item's key, its title names the court, its body names
   * the target and ends with the registration number when there is one.
   */
  function MakeAlert(m: Matter, current: int, registration: string): (r: Alert)
    ensures r.key == FiredKey(m.court, current)
    ensures "Court " <= r.title && "Approaching " <= r.body
    ensures registration != "" ==> |registration| < |r.body| && r.body[|r.body| - |registration|..] == registration
  {
    Alert(
      FiredKey(m.court, current),
      "Court " + m.court + ": Item " + IntToString(current),
      "Approaching " + IntToString(m.item) + (if registration != "" then " \U{00B7} " + registration else ""))
  }

  /** The fired set after a pass, and the notifications raised during it, in order. */
  datatype PassResult = PassResult(fired: set<string>, alerts: seq<Alert>)

  /** One matter's turn: raise its notification unless its key has fired already. */
  function Step(fired: set<string>, m: Matter, courts: map<string, CourtRecord>, n: int): (r: PassResult)
    ensures fired <= r.fired
    ensures DueKey(m, courts, n).Some? ==> DueKey(m, courts, n).value in r.fired
    ensures |r.alerts| <= 1
    ensures r.alerts == [] ==> r.fired == fired
    ensures r.alerts != [] ==> r.alerts[0].key !in fired && r.fired == fired + {r.alerts[0].key}
  {
    match DueKey(m, courts, n)
    case None => PassResult(fired, [])
    case Some(key) =>
      if key in fired then PassResult(fired, [])
      else PassResult(fired + {key}, [MakeAlert(m, CurrentOf(courts, m.court).value, courts[m.court].registration)])
  }

  /**
   * A turn raises a notification exactly when the matter has a due key that has not
   * fired yet, and the notification carries that key.
   */
  lemma StepAlertsDue(fired: set<string>, m: Matter, courts: map<string, CourtRecord>, n: int)
    ensures var r, due := Step(fired, m, courts, n), DueKey(m, courts, n);
      && (r.alerts == [] <==> due.None? || due.value in fired)
      && (r.alerts != [] ==> due == Some(r.alerts[0].key))
  {
  }

  /** The matters' turns in order, starting from the fired set `fired`. */
  function Pass(fired: set<string>, ms: seq<Matter>, courts: map<string, CourtRecord>, n: int): (r: PassResult)
    decreases |ms|
  {
    if ms == [] then PassResult(fired, [])
    else
      var p := Pass(fired, ms[..|ms| - 1], courts, n);
      var q := Step(p.fired, ms[|ms| - 1], courts, n);
      PassResult(q.fired, p.alerts + q.alerts)
  }

  /** Every notification of a pass carries the due key of one of the matters. */
  lemma {:induction false} PassAlertsDue(fired: set<string>, ms: seq<Matter>, courts: map<string, CourtRecord>, n: int)
    ensures |Pass(fired, ms, courts, n).alerts| <= |ms|
    ensures var a := Pass(fired, ms, courts, n).alerts;
      forall i :: 0 <= i < |a| ==> exists j :: 0 <= j < |ms| && DueKey(ms[j], courts, n) == Some(a[i].key)
    decreases |ms|
  {
    if ms != [] {
      var p := ms[..|ms| - 1];
      var pr := Pass(fired, p, courts, n);
      PassAlertsDue(fired, p, courts, n);
      var q := Step(pr.fired, ms[|ms| - 1], courts, n);
      StepAlertsDue(pr.fired, ms[|ms| - 1], courts, n);
      var a := pr.alerts + q.alerts;
      assert Pass(fired, ms, courts, n).alerts == a;
      forall i | 0 <= i < |a| ensures exists j :: 0 <= j < |ms| && DueKey(ms[j], courts, n) == Some(a[i].key) {
        if i < |pr.alerts| {
          assert a[i] == pr.alerts[i];
          var j :| 0 <= j < |p| && DueKey(p[j], courts, n) == Some(pr.alerts[i].key);
          assert ms[j] == p[j];
        } else {
          assert a[i] == q.alerts[0];
          assert DueKey(ms[|ms| - 1], courts, n) == Some(a[i].key);
        }
      }
    }
  }

  /** The keys of a run of notifications. */
  function AlertKeys(alerts: seq<Alert>): set<string> {
    set i | 0 <= i < |alerts| :: alerts[i].key
  }

  lemma AlertKeysAppend(a: seq<Alert>, b: seq<Alert>)
    ensures AlertKeys(a + b) == AlertKeys(a) + AlertKeys(b)
  {
    var c := a + b;
    forall k | k in AlertKeys(c) ensures k in AlertKeys(a) + AlertKeys(b) {
      var i :| 0 <= i < |c| && c[i].key == k;
      if i >= |a| {
        assert b[i - |a|].key == k;
      }
    }
    forall k | k in AlertKeys(a) + AlertKeys(b) ensures k in AlertKeys(c) {
      if k in AlertKeys(a) {
        var i :| 0 <= i < |a| && a[i].key == k;
        assert c[i].key == k;
      } else {
        var i :| 0 <= i < |b| && b[i].key == k;
        assert c[|a| + i].key == k;
      }
    }
  }

  /**
   * A pass adds to the fired set exactly the keys of the notifications it raises,
   * and none of those keys had fired before.
   */
  lemma {:induction false} PassFires(fired: set<string>, ms: seq<Matter>, courts: map<string, CourtRecord>, n: int)
    ensures Pass(fired, ms, courts, n).fired == fired + AlertKeys(Pass(fired, ms, courts, n).alerts)
    ensures fired !! AlertKeys(Pass(fired, ms, courts, n).alerts)
    decreases |ms|
  {
    if ms != [] {
      var p := Pass(fired, ms[..|ms| - 1], courts, n);
      PassFires(fired, ms[..|ms| - 1], courts, n);
      var q := Step(p.fired, ms[|ms| - 1], courts, n);
      assert Pass(fired, ms, courts, n) == PassResult(q.fired, p.alerts + q.alerts);
      AlertKeysAppend(p.alerts, q.alerts);
      if q.alerts != [] {
        assert q.alerts == [q.alerts[0]];
        assert AlertKeys(q.alerts) == {q.alerts[0].key};
      } else {
        assert AlertKeys(q.alerts) == {};
      }
    }
  }

  /** No key is raised twice in one pass. */
  lemma {:induction false} PassAlertsDistinct(fired: set<string>, ms: seq<Matter>, courts: map<string, CourtRecord>, n: int)
    ensures var a := Pass(fired, ms, courts, n).alerts;
      forall i, j :: 0 <= i < j < |a| ==> a[i].key != a[j].key
    decreases |ms|
  {
    if ms != [] {
      var p := Pass(fired, ms[..|ms| - 1], courts, n);
      PassAlertsDistinct(fired, ms[..|ms| - 1], courts, n);
      PassFires(fired, ms[..|ms| - 1], courts, n);
      var q := Step(p.fired, ms[|ms| - 1], courts, n);
      var a := p.alerts + q.alerts;
      assert Pass(fired, ms, courts, n).alerts == a;
      forall i, j | 0 <= i < j < |a|
        ensures a[i].key != a[j].key
      {
        if j >= |p.alerts| {
          assert a[j] == q.alerts[0];
          assert a[i] == p.alerts[i];
          assert p.alerts[i].key in AlertKeys(p.alerts);
        } else {
          assert a[i] == p.alerts[i] && a[j] == p.alerts[j];
        }
      }
    }
  }

  /** The key matter `m` calls for, if any, is in `f`. */
  predicate Covered(f: set<string>, m: Matter, courts: map<string, CourtRecord>, n: int) {
    DueKey(m, courts, n).Some? ==> DueKey(m, courts, n).value in f
  }

  lemma CoveredGrows(f: set<string>, g: set<string>, m: Matter, courts: map<string, CourtRecord>, n: int)
    requires f <= g && Covered(f, m, courts, n)
    ensures Covered(g, m, courts, n)
  {
  }

  lemma StepCovers(f: set<string>, m: Matter, courts: map<string, CourtRecord>, n: int)
    ensures f <= Step(f, m, courts, n).fired
    ensures Covered(Step(f, m, courts, n).fired, m, courts, n)
  {
  }

  /** After a pass, every matter that is in its window has its key fired. */
  lemma {:induction false} PassCovers(fired: set<string>, ms: seq<Matter>, courts: map<string, CourtRecord>, n: int)
    ensures forall i :: 0 <= i < |ms| ==> Covered(Pass(fired, ms, courts, n).fired, ms[i], courts, n)
    decreases |ms|
  {
    if ms != [] {
      var p := ms[..|ms| - 1];
      PassCovers(fired, p, courts, n);
      var a := Pass(fired, p, courts, n);
      var b := Step(a.fired, ms[|ms| - 1], courts, n);
      assert Pass(fired, ms, courts, n).fired == b.fired;
      StepCovers(a.fired, ms[|ms| - 1], courts, n);
      forall i | 0 <= i < |ms|
        ensures Covered(b.fired, ms[i], courts, n)
      {
        if i < |p| {
          assert ms[i] == p[i];
          CoveredGrows(a.fired, b.fired, p[i], courts, n);
        }
      }
    }
  }

  lemma StepInWindow(f: set<string>, m: Matter, courts: map<string, CourtRecord>, n: int)
    requires Assess(m, courts, n).InWindow?
    ensures var c := CurrentOf(courts, m.court).value;
      var key := FiredKey(m.court, c);
      Step(f, m, courts, n) ==
        if key in f then PassResult(f, [])
        else PassResult(f + {key}, [MakeAlert(m, c, courts[m.court].registration)])
  {
  }

  lemma StepIdle(f: set<string>, m: Matter, courts: map<string, CourtRecord>, n: int)
    requires !Assess(m, courts, n).InWindow?
    ensures Step(f, m, courts, n) == PassResult(f, [])
  {
  }

  lemma PassExtend(fired: set<string>, ms: seq<Matter>, i: int, courts: map<string, CourtRecord>, n: int)
    requires 0 <= i < |ms|
    ensures var p := Pass(fired, ms[..i], courts, n);
      var q := Step(p.fired, ms[i], courts, n);
      Pass(fired, ms[..i + 1], courts, n) == PassResult(q.fired, p.alerts + q.alerts)
  {
    assert ms[..i + 1][..i] == ms[..i];
  }

  /** The statuses of the first matters, followed by the next matter's, are those of one more matter. */
  lemma StatusesSnoc(statuses: seq<Status>, st: Status, ms: seq<Matter>, courts: map<string, CourtRecord>, n: int)
    requires |statuses| < |ms| && st == Assess(ms[|statuses|], courts, n)
    requires forall j :: 0 <= j < |statuses| ==> statuses[j] == Assess(ms[j], courts, n)
    ensures forall j :: 0 <= j <= |statuses| ==> (statuses + [st])[j] == Assess(ms[j], courts, n)
  {
  }

  /** A pass over one more matter ends with that matter's turn. */
  lemma PassSnoc(f0: set<string>, ms: seq<Matter>, i: int, courts: map<string, CourtRecord>, n: int,
                 before: set<string>, sofar: seq<Alert>, after: set<string>, raised: seq<Alert>)
    requires 0 <= i < |ms|
    requires PassResult(before, sofar) == Pass(f0, ms[..i], courts, n)
    requires PassResult(after, raised) == Step(before, ms[i], courts, n)
    ensures PassResult(after, sofar + raised) == Pass(f0, ms[..i + 1], courts, n)
  {
    PassExtend(f0, ms, i, courts, n);
  }

  /** A pass over matters whose due keys have all fired raises nothing and changes nothing. */
  lemma {:induction false} PassQuiet(fired: set<string>, ms: seq<Matter>, courts: map<string, CourtRecord>, n: int)
    requires forall i :: 0 <= i < |ms| ==> Covered(fired, ms[i], courts, n)
    ensures Pass(fired, ms, courts, n) == PassResult(fired, [])
    decreases |ms|
  {
    if ms != [] {
      var p := ms[..|ms| - 1];
      forall i | 0 <= i < |p|
        ensures Covered(fired, p[i], courts, n)
      {
        assert p[i] == ms[i];
      }
      PassQuiet(fired, p, courts, n);
    }
  }

  /** Polling the same board again with the same matters raises no notification. */
  lemma PassIdempotent(fired: set<string>, ms: seq<Matter>, courts: map<string, CourtRecord>, n: int)
    ensures var r := Pass(fired, ms, courts, n);
      Pass(r.fired, ms, courts, n) == PassResult(r.fired, [])
  {
    PassCovers(fired, ms, courts, n);
    PassQuiet(Pass(fired, ms, courts, n).fired, ms, courts, n);
  }

  /**
   * Every matter in its window whose key has not fired yet gets a notification
   * during the pass; after the fired set is emptied, that is every matter in its
   * window.
   */
  lemma PassAlertsEveryDueMatter(fired: set<string>, ms: seq<Matter>, courts: map<string, CourtRecord>, n: int)
    ensures forall i :: 0 <= i < |ms| && DueKey(ms[i], courts, n).Some? && DueKey(ms[i], courts, n).value !in fired ==>
      DueKey(ms[i], courts, n).value in AlertKeys(Pass(fired, ms, courts, n).alerts)
  {
    PassCovers(fired, ms, courts, n);
    PassFires(fired, ms, courts, n);
  }

  /** The status of one matter, computed as `renderAlerts` does, through `preAlertWindow`. */
  method StatusOf(m: Matter, courts: map<string, CourtRecord>, n: int) returns (st: Status)
    ensures st == Assess(m, courts, n)
  {
    var current := CurrentOf(courts, m.court);
    var s := SequenceOf(courts, m.court);
    var w := PreAlertWindow(s, m.item, n);
    st := Classify(current, s, m.item, w);
  }

  // ---------------------------------------------------------------------------
  // The page's alert state

  /** The page's set of notified keys, shared by every poll until the user saves. */
  class AlertEngine {
    var fired: set<string>

    constructor()
      ensures fired == {}
    {
      fired := {};
    }

    /**
     * `renderAlerts`: the status of every matter, and the notifications raised, each
     * key joining the fired set.
     */
    method RenderAlerts(matters: seq<Matter>, courts: map<string, CourtRecord>, n: int)
      returns (statuses: seq<Status>, alerts: seq<Alert>)
      modifies this
      ensures |statuses| == |matters|
      ensures forall i :: 0 <= i < |matters| ==> statuses[i] == Assess(matters[i], courts, n)
      ensures PassResult(fired, alerts) == Pass(old(fired), matters, courts, n)
    {
      statuses := [];
      alerts := [];
      for i := 0 to |matters|
        invariant |statuses| == i
        invariant forall j :: 0 <= j < i ==> statuses[j] == Assess(matters[j], courts, n)
        invariant PassResult(fired, alerts) == Pass(old(fired), matters[..i], courts, n)
      {
        var before := fired;
        var st := StatusOf(matters[i], courts, n);
        StatusesSnoc(statuses, st, matters, courts, n);
        statuses := statuses + [st];
        var raised := Notice(matters[i], courts, n, st);
        PassSnoc(old(fired), matters, i, courts, n, before, alerts, fired, raised);
        alerts := alerts + raised;
      }
      assert matters[..|matters|] == matters;
    }

    /** One matter's notification: raised, and its key fired, when it is in its window and its key is new. */
    method Notice(m: Matter, courts: map<string, CourtRecord>, n: int, st: Status) returns (raised: seq<Alert>)
      requires st == Assess(m, courts, n)
      modifies this
      ensures PassResult(fired, raised) == Step(old(fired), m, courts, n)
    {
      raised := [];
      if st.InWindow? {
        var current := CurrentOf(courts, m.court).value;
        var key := FiredKey(m.court, current);
        StepInWindow(fired, m, courts, n);
        if key !in fired {
          fired := fired + {key};
          raised := [MakeAlert(m, current, courts[m.court].registration)];
        }
      } else {
        StepIdle(fired, m, courts, n);
      }
    }

    /** Saving a new watch list forgets every notified key. */
    method Save()
      modifies this
      ensures fired == {}
    {
      fired := {};
    }

    /**
     * One poll of `loop`: read the watch list and the threshold from their fields,
     * then render the alerts against the board.
     */
    method Poll(mattersText: string, thresholdText: string, board: Board)
      returns (statuses: seq<Status>, alerts: seq<Alert>)
      modifies this
      ensures var ms := ParseMatters(mattersText);
        && |statuses| == |ms|
        && (forall i :: 0 <= i < |ms| ==> statuses[i] == Assess(ms[i], board.courts, Threshold(thresholdText)))
        && PassResult(fired, alerts) == Pass(old(fired), ms, board.courts, Threshold(thresholdText))
    {
      var ms := ParseMatters(mattersText);
      var n := Threshold(thresholdText);
      statuses, alerts := RenderAlerts(ms, board.courts, n);
    }
  }
}
