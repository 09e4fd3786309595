/**
 * ensureUniqueStart (app.js:539-565): move an entry's start by quarter hours,
 * wrapping around midnight, until no other entry starts at the same minute,
 * giving up after `Math.ceil(1440 / 15)` = 96 moves.
 */
module Uniqueness {
  import opened TimeOfDay
  import opened Entries

  const Step: nat := 15

  /** `Math.ceil(day / step)` with a day of 1440 minutes and a step of 15. */
  const MaxSteps: nat := 96

  /** `preferredDir >= 0 ? 1 : -1` (app.js:544). */
  function Direction(preferredDir: int): (d: int)
    ensures d == 1 || d == -1
    ensures d == 1 <==> preferredDir >= 0
  {
    if preferredDir >= 0 then 1 else -1
  }

  /**
   * One move of app.js:559, `(minutes + dir * step + day) % day`. The operand
   * is never negative, so JavaScript's `%` is the mathematical remainder and
   * the move is a quarter hour forwards or backwards modulo a day.
   */
  function NudgeStep(m: nat, dir: int): (r: nat)
    requires dir == 1 || dir == -1
    ensures r < MinutesPerDay
  {
    JsRem(m + dir * Step + MinutesPerDay, MinutesPerDay)
  }

  /** A move is a quarter hour forwards or backwards modulo a day. */
  lemma NudgeStepIsModulo(m: nat, dir: int)
    requires dir == 1 || dir == -1
    ensures NudgeStep(m, dir) == (m + dir * Step) % MinutesPerDay
  {
    ModShift(m + dir * Step, 1);
  }

  /** The minute ensureUniqueStart holds after `k` moves from `m`. */
  function Nudged(m: nat, dir: int, k: nat): (r: nat)
    requires dir == 1 || dir == -1
    ensures k > 0 ==> r < MinutesPerDay
  {
    if k == 0 then m else NudgeStep(Nudged(m, dir, k - 1), dir)
  }

  /** Entry `e` is another entry than `id` with a valid start at minute `m`. */
  predicate StartsAt(e: Entry, id: Id, m: int)
  {
    e.id != id && HasStart(e) && StartMinute(e) == m
  }

  /** The conflict test of app.js:552-556: another entry (by id) has a valid start at minute `m`. */
  predicate Collides(es: seq<Entry>, id: Id, m: int)
  {
    |es| > 0 && (StartsAt(es[0], id, m) || Collides(es[1..], id, m))
  }

  /** An entry at any position that starts at `m` is a collision. */
  lemma {:induction false} CollidesAt(es: seq<Entry>, id: Id, m: int, k: nat)
    requires k < |es| && StartsAt(es[k], id, m)
    ensures Collides(es, id, m)
  {
    if k > 0 {
      assert es[1..][k - 1] == es[k];
      CollidesAt(es[1..], id, m, k - 1);
    }
  }

  /** A collision names the position of the entry that causes it. */
  lemma {:induction false} CollidesWitness(es: seq<Entry>, id: Id, m: int) returns (k: nat)
    requires Collides(es, id, m)
    ensures k < |es| && StartsAt(es[k], id, m)
  {
    if StartsAt(es[0], id, m) {
      k := 0;
    } else {
      var j := CollidesWitness(es[1..], id, m);
      k := j + 1;
    }
  }

  /** The number of moves made when the search has reached move `k`: the first free position, or 96. */
  function StepsFrom(es: seq<Entry>, id: Id, m: nat, dir: int, k: nat): (n: nat)
    requires dir == 1 || dir == -1
    requires k <= MaxSteps
    decreases MaxSteps - k
    ensures k <= n <= MaxSteps
  {
    if k == MaxSteps || !Collides(es, id, Nudged(m, dir, k)) then k
    else StepsFrom(es, id, m, dir, k + 1)
  }

  /**
   * The search from move `k` passes only over taken positions and, unless it
   * gives up, stops at a free one.
   */
  lemma {:induction false} StepsFromSpec(es: seq<Entry>, id: Id, m: nat, dir: int, k: nat)
    requires dir == 1 || dir == -1
    requires k <= MaxSteps
    decreases MaxSteps - k
    ensures var n := StepsFrom(es, id, m, dir, k);
            && (forall j :: k <= j < n ==> Collides(es, id, Nudged(m, dir, j)))
            && (n < MaxSteps ==> !Collides(es, id, Nudged(m, dir, n)))
  {
    if k < MaxSteps && Collides(es, id, Nudged(m, dir, k)) {
      StepsFromSpec(es, id, m, dir, k + 1);
    }
  }

  /** How many quarter-hour moves ensureUniqueStart makes; none for an invalid start. */
  function ResolvedSteps(es: seq<Entry>, id: Id, start: string, preferredDir: int): nat
  {
    if !IsTimeString(start) then 0
    else StepsFrom(es, id, ParseHHMM(start), Direction(preferredDir), 0)
  }

  /** The start ensureUniqueStart leaves on entry `id` when the day's entries are `es`. */
  function ResolvedStart(es: seq<Entry>, id: Id, start: string, preferredDir: int): string
  {
    var n := ResolvedSteps(es, id, start, preferredDir);
    if n == 0 then start
    else FormatClock(Nudged(ParseHHMM(start), Direction(preferredDir), n))
  }

  /**
   * ensureUniqueStart (app.js:539-565) as a loop over the day's entries `es`:
   * the new start text and whether it differs from the old one by at least
   * one move. Only the start is computed; the caller stores it on the entry.
   */
  method ResolveStart(es: seq<Entry>, id: Id, start: string, preferredDir: int) returns (newStart: string, changed: bool)
    ensures newStart == ResolvedStart(es, id, start, preferredDir)
    ensures changed <==> ResolvedSteps(es, id, start, preferredDir) > 0
  {
    newStart, changed := start, false;
    if !IsTimeString(start) {
      return;
    }
    var dir := Direction(preferredDir);
    var m0 := ParseHHMM(start);
    var minutes := m0;
    var i := 0;
    ghost var n := StepsFrom(es, id, m0, dir, 0);
    while i < MaxSteps && Collides(es, id, minutes)
      invariant 0 <= i <= MaxSteps
      invariant minutes == Nudged(m0, dir, i)
      invariant StepsFrom(es, id, m0, dir, i) == n
      invariant changed <==> i > 0
      invariant newStart == if i == 0 then start else FormatClock(minutes)
      decreases MaxSteps - i
    {
      StepsFromColliding(es, id, m0, dir, i);
      NudgedNext(m0, dir, i);
      minutes := NudgeStep(minutes, dir);
      newStart := FormatClock(minutes);
      changed := true;
      i := i + 1;
    }
    assert n == i;
  }

  /** One more move from the position after `k` moves. */
  lemma NudgedNext(m: nat, dir: int, k: nat)
    requires dir == 1 || dir == -1
    ensures Nudged(m, dir, k + 1) == NudgeStep(Nudged(m, dir, k), dir)
  {
  }

  /** A move that collides does not end the search: the count from it equals the count from the next one. */
  lemma StepsFromColliding(es: seq<Entry>, id: Id, m: nat, dir: int, k: nat)
    requires dir == 1 || dir == -1
    requires k < MaxSteps && Collides(es, id, Nudged(m, dir, k))
    ensures StepsFrom(es, id, m, dir, k) == StepsFrom(es, id, m, dir, k + 1)
  {
  }

  // ---------------------------------------------------------------------------
  // What the resolution promises
  // ---------------------------------------------------------------------------

  /** The signed length of `k` moves. */
  function Offset(dir: int, k: nat): int
  {
    if dir == 1 then Step * k else -(Step * k)
  }

  lemma ModShift(z: int, q: int)
    ensures (z + MinutesPerDay * q) % MinutesPerDay == z % MinutesPerDay
  {
  }

  lemma ModAddLeft(x: int, y: int)
    ensures (x % MinutesPerDay + y) % MinutesPerDay == (x + y) % MinutesPerDay
  {
    var q := x / MinutesPerDay;
    assert x == MinutesPerDay * q + x % MinutesPerDay;
    ModShift(x % MinutesPerDay + y, q);
  }

  /** Two numbers with the same remainder modulo a day lie a whole number of days apart. */
  lemma SameResidueApart(x: int, y: int)
    ensures x % MinutesPerDay == y % MinutesPerDay ==> !(0 < x - y < MinutesPerDay) && !(0 < y - x < MinutesPerDay)
  {
    if x % MinutesPerDay == y % MinutesPerDay {
      assert x == MinutesPerDay * (x / MinutesPerDay) + x % MinutesPerDay;
      assert y == MinutesPerDay * (y / MinutesPerDay) + y % MinutesPerDay;
      assert x - y == MinutesPerDay * (x / MinutesPerDay - y / MinutesPerDay);
    }
  }

  /** Each move adds ±15 modulo a day: after `k` moves the minute is `(m ± 15k) mod 1440`. */
  lemma {:induction false} NudgedClosedForm(m: nat, dir: int, k: nat)
    requires dir == 1 || dir == -1
    requires k > 0
    ensures Nudged(m, dir, k) == (m + Offset(dir, k)) % MinutesPerDay
  {
    NudgeStepIsModulo(Nudged(m, dir, k - 1), dir);
    if k > 1 {
      NudgedClosedForm(m, dir, k - 1);
      ModAddLeft(m + Offset(dir, k - 1), dir * Step);
      assert Offset(dir, k - 1) + dir * Step == Offset(dir, k);
    }
  }

  /** The text written after at least one move: canonical `HH:MM` of `(m ± 15k) mod 1440`. */
  lemma NudgedText(m: nat, dir: int, k: nat)
    requires dir == 1 || dir == -1
    requires k > 0
    ensures IsCanonicalClock(FormatClock(Nudged(m, dir, k)))
    ensures ParseHHMM(FormatClock(Nudged(m, dir, k))) == (m + Offset(dir, k)) % MinutesPerDay
  {
    FormatClockParses(Nudged(m, dir, k));
    NudgedClosedForm(m, dir, k);
  }

  /** The 96 positions the search examines are pairwise different. */
  lemma NudgedDistinct(m: nat, dir: int, a: nat, b: nat)
    requires dir == 1 || dir == -1
    requires a < b < MaxSteps
    ensures Nudged(m, dir, a) != Nudged(m, dir, b)
  {
    NudgedClosedForm(m, dir, b);
    if a == 0 {
      SameResidueApart(m + Offset(dir, b), m);
    } else {
      NudgedClosedForm(m, dir, a);
      SameResidueApart(m + Offset(dir, b), m + Offset(dir, a));
    }
  }

  /** The positions examined by the first `n` rounds. */
  function Orbit(m: nat, dir: int, n: nat): set<nat>
    requires dir == 1 || dir == -1
  {
    if n == 0 then {} else Orbit(m, dir, n - 1) + {Nudged(m, dir, n - 1)}
  }

  lemma {:induction false} OrbitMembers(m: nat, dir: int, n: nat, x: nat)
    requires dir == 1 || dir == -1
    ensures x in Orbit(m, dir, n) <==> exists k :: 0 <= k < n && x == Nudged(m, dir, k)
  {
    if n > 0 {
      assert Orbit(m, dir, n) == Orbit(m, dir, n - 1) + {Nudged(m, dir, n - 1)};
      OrbitMembers(m, dir, n - 1, x);
      if x == Nudged(m, dir, n - 1) {
        assert 0 <= n - 1 < n && x == Nudged(m, dir, n - 1);
      } else if exists k :: 0 <= k < n && x == Nudged(m, dir, k) {
        var k :| 0 <= k < n && x == Nudged(m, dir, k);
        assert k < n - 1;
      }
    }
  }

  lemma {:induction false} OrbitSize(m: nat, dir: int, n: nat)
    requires dir == 1 || dir == -1
    requires n <= MaxSteps
    ensures |Orbit(m, dir, n)| == n
  {
    if n > 0 {
      OrbitSize(m, dir, n - 1);
      OrbitMembers(m, dir, n - 1, Nudged(m, dir, n - 1));
      forall k | 0 <= k < n - 1 ensures Nudged(m, dir, k) != Nudged(m, dir, n - 1) {
        NudgedDistinct(m, dir, k, n - 1);
      }
    }
  }

  /** The minutes at which entries other than `id` start. */
  function OtherStarts(es: seq<Entry>, id: Id): set<nat>
  {
    if |es| == 0 then {}
    else (if es[0].id != id && HasStart(es[0]) then {StartMinute(es[0])} else {}) + OtherStarts(es[1..], id)
  }

  /** How many entries other than `id` have a valid start. */
  function CountOthers(es: seq<Entry>, id: Id): nat
  {
    if |es| == 0 then 0
    else (if es[0].id != id && HasStart(es[0]) then 1 else 0) + CountOthers(es[1..], id)
  }

  lemma {:induction false} OtherStartsSize(es: seq<Entry>, id: Id)
    ensures |OtherStarts(es, id)| <= CountOthers(es, id)
  {
    if |es| > 0 {
      OtherStartsSize(es[1..], id);
    }
  }

  lemma {:induction false} CollidesInOthers(es: seq<Entry>, id: Id, m: int)
    requires Collides(es, id, m)
    ensures m in OtherStarts(es, id)
  {
    if !StartsAt(es[0], id, m) {
      CollidesInOthers(es[1..], id, m);
    }
  }

  /** The entry itself does not count among the others, so they are fewer than the entries. */
  lemma {:induction false} CountOthersBelowLength(es: seq<Entry>, id: Id, p: nat)
    requires p < |es| && es[p].id == id
    ensures CountOthers(es, id) < |es|
  {
    if p > 0 {
      assert es[1..][p - 1] == es[p];
      CountOthersBelowLength(es[1..], id, p - 1);
    } else {
      CountOthersAtMostLength(es[1..], id);
    }
  }

  lemma {:induction false} CountOthersAtMostLength(es: seq<Entry>, id: Id)
    ensures CountOthers(es, id) <= |es|
  {
    if |es| > 0 {
      CountOthersAtMostLength(es[1..], id);
    }
  }

  /** Every position of an orbit that collides everywhere is some other entry's start. */
  lemma OrbitInOthers(es: seq<Entry>, id: Id, m: nat, dir: int, n: nat)
    requires dir == 1 || dir == -1
    requires forall k :: 0 <= k < n ==> Collides(es, id, Nudged(m, dir, k))
    ensures Orbit(m, dir, n) <= OtherStarts(es, id)
  {
    forall x | x in Orbit(m, dir, n) ensures x in OtherStarts(es, id) {
      OrbitMembers(m, dir, n, x);
      var k :| 0 <= k < n && x == Nudged(m, dir, k);
      CollidesInOthers(es, id, x);
    }
  }

  lemma SubsetSize<T>(a: set<T>, b: set<T>)
    requires a <= b
    ensures |a| <= |b|
  {
    assert b == a + (b - a);
  }

  /**
   * Pigeonhole: with fewer than 96 other entries holding a valid start, one of
   * the 96 positions examined is free, so the search stops before giving up.
   */
  lemma FreeSlotExists(es: seq<Entry>, id: Id, m: nat, dir: int)
    requires dir == 1 || dir == -1
    requires CountOthers(es, id) < MaxSteps
    ensures StepsFrom(es, id, m, dir, 0) < MaxSteps
  {
    if StepsFrom(es, id, m, dir, 0) == MaxSteps {
      StepsFromSpec(es, id, m, dir, 0);
      OrbitInOthers(es, id, m, dir, MaxSteps);
      OrbitSize(m, dir, MaxSteps);
      OtherStartsSize(es, id);
      SubsetSize(Orbit(m, dir, MaxSteps), OtherStarts(es, id));
      assert false;
    }
  }

  /** An invalid start is left as it is and nothing moves. */
  lemma ResolvedStartInvalid(es: seq<Entry>, id: Id, start: string, preferredDir: int)
    ensures !IsTimeString(start) ==> ResolvedStart(es, id, start, preferredDir) == start
                                       && ResolvedSteps(es, id, start, preferredDir) == 0
  {
  }

  /**
   * The shape of a resolved valid start: at most 96 moves of ±15 minutes (the
   * sign of `preferredDir`) modulo a day, the result is still a valid start,
   * and once a move was made it is a minute of the day written `HH:MM`.
   */
  lemma ResolvedStartShape(es: seq<Entry>, id: Id, start: string, preferredDir: int)
    requires IsTimeString(start)
    ensures var n := ResolvedSteps(es, id, start, preferredDir);
            var r := ResolvedStart(es, id, start, preferredDir);
            && n <= MaxSteps
            && IsTimeString(r)
            && ParseHHMM(r) == Nudged(ParseHHMM(start), Direction(preferredDir), n)
  {
    var n := ResolvedSteps(es, id, start, preferredDir);
    if n > 0 {
      FormatClockParses(Nudged(ParseHHMM(start), Direction(preferredDir), n));
    }
  }

  /** After at least one move the start is canonical `HH:MM` text of `(start ± 15n) mod 1440`. */
  lemma ResolvedStartMoved(es: seq<Entry>, id: Id, start: string, preferredDir: int)
    requires IsTimeString(start) && ResolvedSteps(es, id, start, preferredDir) > 0
    ensures var n := ResolvedSteps(es, id, start, preferredDir);
            var r := ResolvedStart(es, id, start, preferredDir);
            IsCanonicalClock(r) && ParseHHMM(r) == (ParseHHMM(start) + Offset(Direction(preferredDir), n)) % MinutesPerDay
  {
    var m, dir, n := ParseHHMM(start), Direction(preferredDir), ResolvedSteps(es, id, start, preferredDir);
    assert ResolvedStart(es, id, start, preferredDir) == FormatClock(Nudged(m, dir, n));
    NudgedText(m, dir, n);
  }

  /**
   * The search itself: every position passed over is taken by another entry,
   * and when the search stops early (in particular whenever fewer than 96
   * other entries have a valid start) no other entry starts at the result.
   */
  lemma ResolvedStartSearch(es: seq<Entry>, id: Id, start: string, preferredDir: int)
    requires IsTimeString(start)
    ensures var n := ResolvedSteps(es, id, start, preferredDir);
            var r := ResolvedStart(es, id, start, preferredDir);
            && (forall k :: 0 <= k < n ==> Collides(es, id, Nudged(ParseHHMM(start), Direction(preferredDir), k)))
            && (n < MaxSteps ==> !Collides(es, id, ParseHHMM(r)))
            && (CountOthers(es, id) < MaxSteps ==> n < MaxSteps)
  {
    ResolvedStartShape(es, id, start, preferredDir);
    StepsFromSpec(es, id, ParseHHMM(start), Direction(preferredDir), 0);
    if CountOthers(es, id) < MaxSteps {
      FreeSlotExists(es, id, ParseHHMM(start), Direction(preferredDir));
    }
  }

  /** With fewer than 96 other valid starts the resolved start is free. */
  lemma ResolvedStartFree(es: seq<Entry>, id: Id, start: string, preferredDir: int)
    requires IsTimeString(start) && CountOthers(es, id) < MaxSteps
    ensures !Collides(es, id, ParseHHMM(ResolvedStart(es, id, start, preferredDir)))
  {
    ResolvedStartSearch(es, id, start, preferredDir);
  }

  /**
   * Giving entry `p` a start that collides with no other entry keeps the
   * starts of a list with distinct ids distinct.
   */
  lemma UpdateStartKeepsDistinct(es: seq<Entry>, p: nat, s: string)
    requires p < |es| && DistinctIds(es) && DistinctStarts(es)
    requires IsTimeString(s) ==> !Collides(es, es[p].id, ParseHHMM(s))
    ensures DistinctIds(es[p := es[p].(start := s)]) && DistinctStarts(es[p := es[p].(start := s)])
  {
    var r := es[p := es[p].(start := s)];
    forall i, j | 0 <= i < j < |r| && HasStart(r[i]) && HasStart(r[j])
      ensures StartMinute(r[i]) != StartMinute(r[j])
    {
      if i == p {
        assert es[j].id != es[p].id;
        if StartsAt(es[j], es[p].id, ParseHHMM(s)) { CollidesAt(es, es[p].id, ParseHHMM(s), j); }
      } else if j == p {
        assert es[i].id != es[p].id;
        if StartsAt(es[i], es[p].id, ParseHHMM(s)) { CollidesAt(es, es[p].id, ParseHHMM(s), i); }
      }
    }
  }
  /** Replacing the entry being moved by one with the same id does not change what collides with it. */
  lemma {:induction false} CollidesUpdate(es: seq<Entry>, p: nat, x: Entry, m: int)
    requires p < |es| && x.id == es[p].id
    ensures Collides(es[p := x], x.id, m) == Collides(es, x.id, m)
  {
    var u := es[p := x];
    if p == 0 {
      assert u[1..] == es[1..];
    } else {
      assert u[1..] == es[1..][p - 1 := x];
      assert u[0] == es[0];
      CollidesUpdate(es[1..], p - 1, x, m);
    }
  }

  /** Nor does it change how many other entries have a valid start. */
  lemma {:induction false} CountOthersUpdate(es: seq<Entry>, p: nat, x: Entry)
    requires p < |es| && x.id == es[p].id
    ensures CountOthers(es[p := x], x.id) == CountOthers(es, x.id)
  {
    var u := es[p := x];
    if p == 0 {
      assert u[1..] == es[1..];
    } else {
      assert u[1..] == es[1..][p - 1 := x];
      assert u[0] == es[0];
      CountOthersUpdate(es[1..], p - 1, x);
    }
  }

  /** An entry appended with id `id` is not among the others of `id`. */
  lemma {:induction false} CountOthersSnocSelf(es: seq<Entry>, x: Entry)
    ensures CountOthers(es + [x], x.id) == CountOthers(es, x.id)
  {
    if |es| == 0 {
      assert [x][1..] == [];
    } else {
      assert (es + [x])[1..] == es[1..] + [x];
      CountOthersSnocSelf(es[1..], x);
    }
  }

  /**
   * Writing start `s` into entry `p` and then running ensureUniqueStart keeps
   * the starts of a list with distinct ids distinct, provided fewer than 96
   * other entries have a valid start (otherwise the search may give up on a
   * taken minute).
   */
  lemma ResolveKeepsDistinct(es: seq<Entry>, p: nat, s: string, preferredDir: int)
    requires p < |es| && DistinctIds(es) && DistinctStarts(es)
    requires CountOthers(es, es[p].id) < MaxSteps
    ensures var es1 := es[p := es[p].(start := s)];
            var r := ResolvedStart(es1, es[p].id, s, preferredDir);
            DistinctIds(es1[p := es1[p].(start := r)]) && DistinctStarts(es1[p := es1[p].(start := r)])
  {
    var id := es[p].id;
    var es1 := es[p := es[p].(start := s)];
    var r := ResolvedStart(es1, id, s, preferredDir);
    assert es1[p := es1[p].(start := r)] == es[p := es[p].(start := r)];
    if IsTimeString(s) {
      CountOthersUpdate(es, p, es[p].(start := s));
      ResolvedStartShape(es1, id, s, preferredDir);
      ResolvedStartFree(es1, id, s, preferredDir);
      CollidesUpdate(es, p, es[p].(start := s), ParseHHMM(r));
    }
    UpdateStartKeepsDistinct(es, p, r);
  }
}
