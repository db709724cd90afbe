/** The strict-monotonic line filter of `_removeObjectsOnSameLine`, specified
    independently of its loop: an entry is kept exactly when its line is a new
    record, strictly above every line seen before it (and above 0). */
module LineFilter {
  import opened SyntaxTree

  /** A `LinenoStorage`: (node, line) entries in insertion order. In the source
      the keys are distinct node objects, so a sequence of pairs holds exactly
      what the dict holds. */
  type Storage = seq<(Node, int)>

  function Max(a: int, b: int): int
  {
    if a < b then b else a
  }

  /** The largest line among the first `j` entries, or 0 when none is positive. */
  function PrefixMax(s: Storage, j: nat): (m: int)
    requires j <= |s|
    ensures m >= 0
    ensures forall k | 0 <= k < j :: s[k].1 <= m
    ensures m == 0 || exists k | 0 <= k < j :: s[k].1 == m
  {
    if j == 0 then 0 else Max(PrefixMax(s, j - 1), s[j - 1].1)
  }

  /** Entry `j` survives the filter. */
  predicate Kept(s: Storage, j: nat)
    requires j < |s|
  {
    s[j].1 != 0 && s[j].1 > PrefixMax(s, j)
  }

  /** The positions, in increasing order, of the surviving entries among the
      first `n`. */
  function KeptIndices(s: Storage, n: nat): (idx: seq<nat>)
    requires n <= |s|
    ensures |idx| <= n
    ensures forall k | 0 <= k < |idx| :: idx[k] < n && Kept(s, idx[k])
    ensures forall j | 0 <= j < n && Kept(s, j) :: j in idx
    ensures forall k, l | 0 <= k < l < |idx| :: idx[k] < idx[l]
  {
    if n == 0 then [] else KeptIndices(s, n - 1) + (if Kept(s, n - 1) then [n - 1] else [])
  }

  /** The nodes at positions `idx`. */
  function Project(s: Storage, idx: seq<nat>): seq<Node>
    requires forall k | 0 <= k < |idx| :: idx[k] < |s|
  {
    seq(|idx|, k requires 0 <= k < |idx| => s[idx[k]].0)
  }

  /** What `_removeObjectsOnSameLine` returns for `s`. */
  function Filtered(s: Storage): seq<Node>
  {
    Project(s, KeptIndices(s, |s|))
  }

  /** The line of the last entry kept before position `j`, 0 if there is none:
      the value `last_added_obj_lineno` holds when the loop reaches `j`. */
  function LastKeptLine(s: Storage, j: nat): int
    requires j <= |s|
  {
    var idx := KeptIndices(s, j);
    if idx == [] then 0 else s[idx[|idx| - 1]].1
  }

  /** One step of the loop: the last kept line moves to entry `j - 1` exactly
      when that entry is kept. */
  lemma LastKeptLineStep(s: Storage, j: nat)
    requires 0 < j <= |s|
    ensures LastKeptLine(s, j) == if Kept(s, j - 1) then s[j - 1].1 else LastKeptLine(s, j - 1)
  {
    var before := KeptIndices(s, j - 1);
    if Kept(s, j - 1) {
      assert KeptIndices(s, j) == before + [j - 1];
    } else {
      assert KeptIndices(s, j) == before;
    }
  }

  /** The record line so far is the line of the last kept entry. */
  lemma {:induction false} PrefixMaxIsLastKeptLine(s: Storage, j: nat)
    requires j <= |s|
    ensures PrefixMax(s, j) == LastKeptLine(s, j)
  {
    if j > 0 {
      PrefixMaxIsLastKeptLine(s, j - 1);
      LastKeptLineStep(s, j);
    }
  }

  /** An entry is dropped exactly when its line is 0 or does not exceed the
      line of the last kept entry, even when no earlier entry had that line. */
  lemma DroppedUnlessAboveLastKept(s: Storage, j: nat)
    requires j < |s|
    ensures j in KeptIndices(s, |s|) <==> s[j].1 != 0 && s[j].1 > LastKeptLine(s, j)
  {
    PrefixMaxIsLastKeptLine(s, j);
  }

  /** The kept entries have strictly increasing lines. */
  lemma KeptLinesStrictlyRise(s: Storage)
    ensures var idx := KeptIndices(s, |s|);
      forall k, l | 0 <= k < l < |idx| :: s[idx[k]].1 < s[idx[l]].1
  {
    var idx := KeptIndices(s, |s|);
    forall k, l | 0 <= k < l < |idx|
      ensures s[idx[k]].1 < s[idx[l]].1
    {
      assert Kept(s, idx[l]);
      assert s[idx[k]].1 <= PrefixMax(s, idx[l]);
    }
  }

  /** No kept entry has a line of 0 or below. */
  lemma KeptLinesPositive(s: Storage)
    ensures var idx := KeptIndices(s, |s|);
      forall k | 0 <= k < |idx| :: s[idx[k]].1 > 0
  {
    var idx := KeptIndices(s, |s|);
    forall k | 0 <= k < |idx|
      ensures s[idx[k]].1 > 0
    {
      assert Kept(s, idx[k]);
    }
  }

  /** Before the first positive line the record stays 0. */
  lemma {:induction false} PrefixMaxZeroBeforePositive(s: Storage, j: nat)
    requires j <= |s|
    requires forall k | 0 <= k < j :: s[k].1 <= 0
    ensures PrefixMax(s, j) == 0
  {
    if j > 0 {
      PrefixMaxZeroBeforePositive(s, j - 1);
    }
  }

  /** The first kept entry is the first entry with a positive line. */
  lemma FirstKeptIsFirstPositiveLine(s: Storage, j: nat)
    requires j < |s| && s[j].1 > 0
    requires forall k | 0 <= k < j :: s[k].1 <= 0
    ensures KeptIndices(s, |s|) != [] && KeptIndices(s, |s|)[0] == j
  {
    var idx := KeptIndices(s, |s|);
    PrefixMaxZeroBeforePositive(s, j);
    assert Kept(s, j);
    assert j in idx;
    KeptLinesPositive(s);
    assert s[idx[0]].1 > 0;
    var p :| 0 <= p < |idx| && idx[p] == j;
    assert idx[0] <= idx[p];
  }

  /** Nothing survives exactly when no entry has a positive line. */
  lemma NothingKeptIffNoPositiveLine(s: Storage)
    ensures KeptIndices(s, |s|) == [] <==> forall k | 0 <= k < |s| :: s[k].1 <= 0
  {
    var idx := KeptIndices(s, |s|);
    KeptLinesPositive(s);
    assert idx != [] ==> idx[0] < |s| && s[idx[0]].1 > 0;
    if exists k | 0 <= k < |s| :: s[k].1 > 0 {
      var j := FirstPositive(s);
      FirstKeptIsFirstPositiveLine(s, j);
    }
  }

  /** The position of the first entry with a positive line. */
  function FirstPositive(s: Storage): (j: nat)
    requires exists k | 0 <= k < |s| :: s[k].1 > 0
    ensures j < |s| && s[j].1 > 0
    ensures forall k | 0 <= k < j :: s[k].1 <= 0
  {
    if s[0].1 > 0 then 0 else 1 + FirstPositive(s[1..])
  }

  /** Lines that arrive out of order are dropped even though they are new:
      only the entry on line 3 survives. */
  lemma OutOfOrderLinesDropped(a: Node, b: Node, c: Node)
    ensures Filtered([(a, 3), (b, 1), (c, 2)]) == [a]
  {
    var s := [(a, 3), (b, 1), (c, 2)];
    assert Kept(s, 0) && !Kept(s, 1) && !Kept(s, 2);
    assert KeptIndices(s, 3) == [0];
  }
}
