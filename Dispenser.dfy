/** The question pool of GameScreen.tsx: each draw takes one question out of
    the working pool, refilling the pool with the full question set whenever
    it runs out, so that every question is served once per lap. The random
    index is a parameter chosen by the caller. */
module Dispenser {
  import opened Types

  /** What a draw picks from: the working pool, or the full set once the pool is empty. */
  function Source(pool: seq<Question>, full: seq<Question>): seq<Question>
  {
    if |pool| > 0 then pool else full
  }

  /** `r` is an index the random pick can produce for a source of length `n`:
      below `n`, and 0 when the source is empty. */
  predicate IndexOk(pool: seq<Question>, full: seq<Question>, r: nat)
  {
    var n := |Source(pool, full)|;
    if n == 0 then r == 0 else r < n
  }

  /** `s` without position `r`, in the original order. */
  function RemoveAt(s: seq<Question>, r: nat): (rest: seq<Question>)
    requires r < |s|
    ensures |rest| == |s| - 1
  {
    s[..r] + s[r + 1..]
  }

  lemma RemoveAtSpec(s: seq<Question>, r: nat)
    requires r < |s|
    ensures |RemoveAt(s, r)| == |s| - 1
    ensures forall i :: 0 <= i < r ==> RemoveAt(s, r)[i] == s[i]
    ensures forall i :: r <= i < |s| - 1 ==> RemoveAt(s, r)[i] == s[i + 1]
    ensures multiset(RemoveAt(s, r)) + multiset{s[r]} == multiset(s)
  {
    assert s == s[..r] + [s[r]] + s[r + 1..];
  }

  /** The outcome of one draw: the question served (absent only when there
      are no questions at all) and the pool left for the next draw. */
  datatype Drawn = Drawn(question: Option<Question>, pool: seq<Question>)

  function DrawQuestion(pool: seq<Question>, full: seq<Question>, r: nat): (d: Drawn)
    requires IndexOk(pool, full, r)
    ensures d.question.Some? <==> |pool| > 0 || |full| > 0
    ensures d.question.Some? ==> d.question.value in Source(pool, full)
  {
    var src := Source(pool, full);
    if |src| == 0 then Drawn(None, full)
    else
      var rest := RemoveAt(src, r);
      Drawn(Some(src[r]), if |rest| > 0 then rest else full)
  }

  /** A draw serves position `r` of its source and leaves exactly the other
      positions, in order, refilling from the full set when none are left. */
  lemma DrawSpec(pool: seq<Question>, full: seq<Question>, r: nat)
    requires IndexOk(pool, full, r)
    ensures var src := (if |pool| > 0 then pool else full); var d := DrawQuestion(pool, full, r);
            (|src| == 0 ==> d.question == None && d.pool == []) &&
            (|src| > 0 ==> d.question == Some(src[r]) &&
                           (|src| == 1 ==> d.pool == full) &&
                           (|src| > 1 ==> |d.pool| == |src| - 1 &&
                                          (forall i :: 0 <= i < r ==> d.pool[i] == src[i]) &&
                                          (forall i :: r <= i < |src| - 1 ==> d.pool[i] == src[i + 1])))
  {
    var src := Source(pool, full);
    if |src| > 0 {
      RemoveAtSpec(src, r);
    }
  }

  /** With a non-empty question set, the pool is never empty after a draw
      and never holds anything the full set does not. */
  lemma {:induction false} DrawKeepsPoolInFullSet(pool: seq<Question>, full: seq<Question>, r: nat)
    requires |full| > 0 && multiset(pool) <= multiset(full)
    requires IndexOk(pool, full, r)
    ensures |DrawQuestion(pool, full, r).pool| > 0
    ensures multiset(DrawQuestion(pool, full, r).pool) <= multiset(full)
    ensures DrawQuestion(pool, full, r).question.Some? && DrawQuestion(pool, full, r).question.value in full
  {
    var src := Source(pool, full);
    RemoveAtSpec(src, r);
    assert src[r] in multiset(src);
  }

  /** Indices a run of consecutive draws can use. */
  predicate DrawsOk(pool: seq<Question>, full: seq<Question>, rs: seq<nat>)
    decreases |rs|
  {
    |rs| == 0 || (IndexOk(pool, full, rs[0]) && DrawsOk(DrawQuestion(pool, full, rs[0]).pool, full, rs[1..]))
  }

  /** The questions served by consecutive draws and the pool left afterwards. */
  datatype Lap = Lap(served: seq<Option<Question>>, pool: seq<Question>)

  function DrawMany(pool: seq<Question>, full: seq<Question>, rs: seq<nat>): (l: Lap)
    requires DrawsOk(pool, full, rs)
    ensures |l.served| == |rs|
    decreases |rs|
  {
    if |rs| == 0 then Lap([], pool)
    else
      var d := DrawQuestion(pool, full, rs[0]);
      var rest := DrawMany(d.pool, full, rs[1..]);
      Lap([d.question] + rest.served, rest.pool)
  }

  /** The questions actually present in a list of draw results. */
  function Present(s: seq<Option<Question>>): seq<Question>
  {
    if |s| == 0 then []
    else (if s[0].Some? then [s[0].value] else []) + Present(s[1..])
  }

  /** Draining a non-empty pool takes as many draws as it has entries,
      serves each entry exactly once, and leaves the full set behind. */
  lemma {:induction false} DrainServesPoolOnce(pool: seq<Question>, full: seq<Question>, rs: seq<nat>)
    requires |pool| > 0 && |rs| == |pool| && DrawsOk(pool, full, rs)
    ensures var l := DrawMany(pool, full, rs);
            (forall k :: 0 <= k < |l.served| ==> l.served[k].Some?) &&
            multiset(Present(l.served)) == multiset(pool) && l.pool == full
    decreases |rs|
  {
    var r := rs[0];
    DrawFromPool(pool, full, r);
    var d := DrawQuestion(pool, full, r);
    var tail := DrawMany(d.pool, full, rs[1..]);
    var l := DrawMany(pool, full, rs);
    assert l.served == [Some(pool[r])] + tail.served && l.pool == tail.pool;
    assert l.served[1..] == tail.served;
    assert Present(l.served) == [pool[r]] + Present(tail.served);
    if |pool| == 1 {
      assert tail.served == [];
      assert pool == [pool[r]];
    } else {
      RemoveAtSpec(pool, r);
      DrainServesPoolOnce(RemoveAt(pool, r), full, rs[1..]);
    }
  }

  /** A draw from a non-empty pool serves entry r and leaves the rest, or the
      full set when r was the last entry. */
  lemma DrawFromPool(pool: seq<Question>, full: seq<Question>, r: nat)
    requires r < |pool|
    ensures DrawQuestion(pool, full, r) == Drawn(Some(pool[r]), if |pool| > 1 then RemoveAt(pool, r) else full)
  {
  }

  /** A lap over a full set of N questions: starting from the full pool, N
      consecutive draws serve every question exactly once, and the pool is
      the full set again afterwards. */
  lemma LapServesEveryQuestionOnce(full: seq<Question>, rs: seq<nat>)
    requires |full| > 0 && |rs| == |full| && DrawsOk(full, full, rs)
    ensures var l := DrawMany(full, full, rs);
            (forall k :: 0 <= k < |l.served| ==> l.served[k].Some?) &&
            multiset(Present(l.served)) == multiset(full) && l.pool == full
  {
    DrainServesPoolOnce(full, full, rs);
  }
}
