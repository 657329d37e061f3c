/** Fitting the columns of a table into a width limit (src/fleet_tui.rs). */
module TableWidths {
  import opened Naturals

  function Sum(s: seq<nat>): nat {
    if s == [] then 0 else Sum(s[..|s| - 1]) + s[|s| - 1]
  }

  function RenderWidth(widths: seq<nat>): nat {
    Sum(widths) + |widths| * 3 + 1
  }

  /** One cell for each column that is not empty. */
  function MinWidths(widths: seq<nat>): (r: seq<nat>)
    ensures |r| == |widths|
  {
    seq(|widths|, i requires 0 <= i < |widths| => if widths[i] == 0 then 0 else 1)
  }

  /** Columns cut down to `level`, the first `k` of them to one more. */
  function Fill(widths: seq<nat>, level: nat, k: nat): (r: seq<nat>)
    ensures |r| == |widths|
  {
    seq(|widths|, i requires 0 <= i < |widths| => Min(widths[i], if i < k then level + 1 else level))
  }

  ghost predicate IsFill(widths: seq<nat>, fitted: seq<nat>) {
    exists level: nat, k: nat :: level >= 1 && k <= |widths| && fitted == Fill(widths, level, k)
  }

  lemma {:induction false} SumUpdate(s: seq<nat>, i: nat, v: nat)
    requires i < |s|
    ensures Sum(s[i := v]) + s[i] == Sum(s) + v
    decreases |s|
  {
    var t := s[i := v];
    if i == |s| - 1 {
      assert t[..|s| - 1] == s[..|s| - 1];
    } else {
      SumUpdate(s[..|s| - 1], i, v);
      assert t[..|s| - 1] == s[..|s| - 1][i := v];
    }
  }

  lemma {:induction false} SumMonotone(s: seq<nat>, t: seq<nat>)
    requires |s| == |t| && forall i :: 0 <= i < |s| ==> s[i] <= t[i]
    ensures Sum(s) <= Sum(t)
    ensures Sum(s) == Sum(t) ==> s == t
  {
    if s != [] {
      var n := |s| - 1;
      SumMonotone(s[..n], t[..n]);
      assert s == s[..n] + [s[n]] && t == t[..n] + [t[n]];
    }
  }

  // ---- what the fitted widths mean ----

  /** Water filling: a shrunk column is never more than one narrower than any other. */
  lemma FillIsLevel(widths: seq<nat>, fitted: seq<nat>, i: nat, j: nat)
    requires IsFill(widths, fitted) && i < |widths| && j < |widths| && fitted[i] < widths[i]
    ensures fitted[j] <= fitted[i] + 1
    ensures fitted[j] == fitted[i] + 1 && fitted[j] < widths[j] ==> j < i
  {
  }

  /** No column grows, and an inhabited column keeps at least one cell. */
  lemma FillBounds(widths: seq<nat>, fitted: seq<nat>)
    requires IsFill(widths, fitted)
    ensures |fitted| == |widths|
    ensures forall i :: 0 <= i < |widths| ==> fitted[i] <= widths[i]
    ensures forall i :: 0 <= i < |widths| ==> (fitted[i] == 0 <==> widths[i] == 0)
  {
  }

  /** The total decides the columns: there is only one water filling of a given width. */
  lemma FillUnique(widths: seq<nat>, a: seq<nat>, b: seq<nat>)
    requires IsFill(widths, a) && IsFill(widths, b) && Sum(a) == Sum(b)
    ensures a == b
  {
    var la: nat, ka: nat :| la >= 1 && ka <= |widths| && a == Fill(widths, la, ka);
    var lb: nat, kb: nat :| lb >= 1 && kb <= |widths| && b == Fill(widths, lb, kb);
    if la < lb || (la == lb && ka <= kb) {
      FillMonotone(widths, la, ka, lb, kb);
    } else {
      FillMonotone(widths, lb, kb, la, ka);
    }
  }

  lemma FillMonotone(widths: seq<nat>, la: nat, ka: nat, lb: nat, kb: nat)
    requires la < lb || (la == lb && ka <= kb)
    ensures Sum(Fill(widths, la, ka)) == Sum(Fill(widths, lb, kb)) ==>
              Fill(widths, la, ka) == Fill(widths, lb, kb)
  {
    SumMonotone(Fill(widths, la, ka), Fill(widths, lb, kb));
  }

  // ---- the shrink loop ----

  /** `max_by_key` over the columns above their minimum: the last of the widest. */
  method PickWidest(widths: array<nat>, mins: seq<nat>) returns (idx: int)
    requires |mins| == widths.Length
    requires forall i :: 0 <= i < |mins| ==> mins[i] <= 1 && mins[i] <= widths[i]
    requires forall i :: 0 <= i < |mins| ==> (mins[i] == 0 ==> widths[i] == 0)
    ensures -1 <= idx < widths.Length
    ensures idx == -1 ==> forall i :: 0 <= i < widths.Length ==> widths[i] == mins[i]
    ensures idx >= 0 ==>
              && widths[idx] > mins[idx]
              && (forall i :: 0 <= i < widths.Length ==> widths[i] <= widths[idx])
              && (forall i :: idx < i < widths.Length ==> widths[i] < widths[idx])
  {
    idx := -1;
    for i := 0 to widths.Length
      invariant -1 <= idx < i
      invariant idx == -1 ==> forall j :: 0 <= j < i ==> widths[j] == mins[j]
      invariant idx >= 0 ==>
                  && widths[idx] > mins[idx]
                  && (forall j :: 0 <= j < i ==> widths[j] <= widths[idx])
                  && (forall j :: idx < j < i ==> widths[j] < widths[idx])
    {
      if widths[i] > mins[i] && (idx == -1 || widths[i] - mins[i] >= widths[idx] - mins[idx]) {
        idx := i;
      }
    }
  }

  /** Taking one cell from the last of the widest columns lowers the water by one cell. */
  lemma ShrinkStep(widths: seq<nat>, current: seq<nat>, idx: nat)
    requires IsFill(widths, current) && idx < |current| && current[idx] > 1
    requires forall i :: 0 <= i < |current| ==> current[i] <= current[idx]
    requires forall i :: idx < i < |current| ==> current[i] < current[idx]
    ensures IsFill(widths, current[idx := current[idx] - 1])
    ensures Sum(current[idx := current[idx] - 1]) == Sum(current) - 1
  {
    SumUpdate(current, idx, current[idx] - 1);
    var level: nat, k: nat :| level >= 1 && k <= |widths| && current == Fill(widths, level, k);
    assert current[idx := current[idx] - 1] == Fill(widths, current[idx] - 1, idx);
  }

  lemma FillSelf(widths: seq<nat>)
    ensures IsFill(widths, widths)
  {
    var top := Top(widths);
    assert widths == Fill(widths, top + 1, 0);
  }

  function Top(s: seq<nat>): (m: nat)
    ensures forall i :: 0 <= i < |s| ==> s[i] <= m
  {
    if s == [] then 0
    else
      var m := Top(s[..|s| - 1]);
      if m >= s[|s| - 1] then m else s[|s| - 1]
  }

  /** One round of the loop; `false` when every column is at its minimum. */
  method ShrinkOnce(widths: array<nat>, mins: seq<nat>, ghost start: seq<nat>) returns (shrunk: bool)
    requires IsFill(start, widths[..]) && mins == MinWidths(start)
    modifies widths
    ensures IsFill(start, widths[..])
    ensures shrunk ==> Sum(widths[..]) == Sum(old(widths[..])) - 1
    ensures !shrunk ==> widths[..] == old(widths[..]) == mins
  {
    FillBounds(start, widths[..]);
    ghost var before := widths[..];
    assert forall i :: 0 <= i < widths.Length ==> widths[i] == before[i];
    var idx := PickWidest(widths, mins);
    if idx == -1 {
      assert widths[..] == mins;
      return false;
    }
    ShrinkStep(start, before, idx);
    widths[idx] := widths[idx] - 1;
    assert widths[..] == before[idx := before[idx] - 1];
    return true;
  }

  method FitTableWidths(widths: array<nat>, maxWidth: nat) returns (fits: bool)
    modifies widths
    ensures fits <==> RenderWidth(MinWidths(old(widths[..]))) <= maxWidth
    ensures !fits || RenderWidth(old(widths[..])) <= maxWidth ==> widths[..] == old(widths[..])
    ensures fits && RenderWidth(old(widths[..])) > maxWidth ==>
              RenderWidth(widths[..]) == maxWidth && IsFill(old(widths[..]), widths[..])
  {
    ghost var start := widths[..];
    var mins := MinWidths(widths[..]);
    SumMonotone(mins, start);
    if RenderWidth(widths[..]) <= maxWidth {
      return true;
    }
    if RenderWidth(mins) > maxWidth {
      return false;
    }
    FillSelf(start);
    while RenderWidth(widths[..]) > maxWidth
      invariant IsFill(start, widths[..])
      invariant RenderWidth(widths[..]) >= maxWidth
      decreases Sum(widths[..])
    {
      var shrunk := ShrinkOnce(widths, mins, start);
      if !shrunk {
        break;
      }
    }
    return RenderWidth(widths[..]) <= maxWidth;
  }
}
