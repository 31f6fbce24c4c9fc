/**
 * The row bookkeeping merge_model does after the matching
 * (DLModels.py:421-472): the relocation plan prev_map that fills the freed
 * slots from the top when the layer shrinks, the move loop that applies it
 * (once to the layer's unit rows, once to the next layer's input rows), the
 * zero-padded copy into the resized weight matrix, and the refill of the
 * slots that take fresh random rows.
 */
module Relocation {
  import opened Arith
  import opened Matrices
  import opened Sorting

  /** The elements of a sequence, as a set. */
  function Elems(s: seq<nat>): set<nat> {
    set x | x in s
  }

  lemma ElemsSnoc(s: seq<nat>, x: nat)
    ensures Elems(s + [x]) == Elems(s) + {x}
  {
  }

  /** A sequence without repeats has as many elements as its length. */
  lemma {:induction false} ElemsDistinct(s: seq<nat>)
    requires Distinct(s)
    ensures |Elems(s)| == |s|
    decreases |s|
  {
    if s != [] {
      var f, y := s[..|s| - 1], s[|s| - 1];
      ElemsDistinct(f);
      assert s == f + [y];
      ElemsSnoc(f, y);
    }
  }

  /** A sequence has at most as many elements as its length. */
  lemma {:induction false} ElemsAtMost(s: seq<nat>)
    ensures |Elems(s)| <= |s|
    decreases |s|
  {
    if s != [] {
      var f, y := s[..|s| - 1], s[|s| - 1];
      ElemsAtMost(f);
      assert s == f + [y];
      ElemsSnoc(f, y);
    }
  }

  lemma SubsetCard(a: set<nat>, b: set<nat>)
    requires a <= b
    ensures |a| <= |b|
  {
    assert b == a + (b - a);
    assert a * (b - a) == {};
  }

  /**
   * sorted(set(range(n)) - set(slots), reverse=True) (DLModels.py:426):
   * the units below n that are not in slots, largest first.
   */
  function Descending(n: nat, slots: seq<nat>): (r: seq<nat>)
    ensures |r| <= n
    decreases n
  {
    if n == 0 then []
    else (if n - 1 in slots then [] else [n - 1]) + Descending(n - 1, slots)
  }

  /** Descending holds exactly the units below n that are not slots. */
  lemma {:induction false} DescendingMembers(n: nat, slots: seq<nat>)
    ensures forall x: nat :: x in Descending(n, slots) <==> x < n && x !in slots
    decreases n
  {
    if n > 0 {
      var head, rest := if n - 1 in slots then [] else [n - 1], Descending(n - 1, slots);
      DescendingMembers(n - 1, slots);
      forall x: nat ensures x in head + rest <==> x < n && x !in slots {
        assert x in head + rest <==> x in head || x in rest;
      }
    }
  }

  /** One step of Descending: unit n - 1 first unless it is a slot, then the units below it. */
  lemma DescendingStep(n: nat, slots: seq<nat>)
    requires n > 0
    ensures Descending(n, slots) == (if n - 1 in slots then [] else [n - 1]) + Descending(n - 1, slots)
  {
  }

  /** When unit n - 1 is a slot, Descending over n is Descending over n - 1, entry by entry. */
  lemma DescendingSkip(n: nat, slots: seq<nat>, k: nat)
    requires n > 0 && n - 1 in slots && k < |Descending(n, slots)|
    ensures |Descending(n, slots)| == |Descending(n - 1, slots)|
    ensures Descending(n, slots)[k] == Descending(n - 1, slots)[k]
  {
    DescendingStep(n, slots);
  }

  /** When unit n - 1 is not a slot, it comes first and every later entry is a smaller unit, shifted by one. */
  lemma DescendingTail(n: nat, slots: seq<nat>, k: nat)
    requires n > 0 && n - 1 !in slots && 0 < k < |Descending(n, slots)|
    ensures |Descending(n, slots)| == |Descending(n - 1, slots)| + 1
    ensures Descending(n, slots)[0] == n - 1
    ensures Descending(n, slots)[k] == Descending(n - 1, slots)[k - 1] < n - 1
  {
    var rest := Descending(n - 1, slots);
    DescendingStep(n, slots);
    DescendingMembers(n - 1, slots);
    assert rest[k - 1] in rest;
  }

  /** Descending is strictly decreasing: largest first, no unit twice. */
  lemma {:induction false} DescendingSorted(n: nat, slots: seq<nat>, i: nat, j: nat)
    requires i < j < |Descending(n, slots)|
    ensures Descending(n, slots)[i] > Descending(n, slots)[j]
    decreases n
  {
    if n - 1 in slots {
      DescendingSkip(n, slots, i);
      DescendingSkip(n, slots, j);
      DescendingSorted(n - 1, slots, i, j);
    } else {
      DescendingTail(n, slots, j);
      if i > 0 {
        DescendingTail(n, slots, i);
        DescendingSorted(n - 1, slots, i - 1, j - 1);
      }
    }
  }

  /**
   * Any k distinct units below n outside slots guarantee that Descending
   * has at least k entries, so zip pairs every slot with a source.
   */
  lemma DescendingAtLeast(n: nat, slots: seq<nat>, others: seq<nat>)
    requires Distinct(others) && forall t :: 0 <= t < |others| ==> others[t] < n && others[t] !in slots
    ensures |others| <= |Descending(n, slots)|
  {
    var d := Descending(n, slots);
    DescendingMembers(n, slots);
    ElemsDistinct(others);
    ElemsAtMost(d);
    assert Elems(others) <= Elems(d);
    SubsetCard(Elems(others), Elems(d));
  }

  /**
   * dict(zip(keys, values)) (DLModels.py:427): the i-th key maps to the
   * i-th value, zip stopping at the shorter list.
   */
  function ZipMap(keys: seq<nat>, values: seq<nat>): (m: map<nat, nat>)
    ensures forall d :: d in m <==> d in keys[..Min(|keys|, |values|)]
    decreases |keys|
  {
    var k := Min(|keys|, |values|);
    if k == 0 then map[]
    else
      var m := ZipMap(keys[..k - 1], values[..k - 1]);
      assert keys[..k] == keys[..k - 1] + [keys[k - 1]];
      m[keys[k - 1] := values[k - 1]]
  }

  /** With distinct keys, the key at position i maps to the value at position i. */
  lemma {:induction false} ZipMapAt(keys: seq<nat>, values: seq<nat>, i: nat)
    requires Distinct(keys) && i < |keys| && i < |values|
    ensures keys[i] in ZipMap(keys, values) && ZipMap(keys, values)[keys[i]] == values[i]
    decreases |keys|
  {
    var k := Min(|keys|, |values|);
    if i < k - 1 {
      assert keys[..k - 1][i] == keys[i] && values[..k - 1][i] == values[i];
      ZipMapAt(keys[..k - 1], values[..k - 1], i);
      assert keys[k - 1] != keys[i];
    }
  }

  /** prev_map (DLModels.py:426-427): the freed slots, in order, each paired with one of the largest units not freed. */
  function PrevMap(n: nat, emptySlots: seq<nat>): map<nat, nat> {
    var sources := Descending(n, emptySlots);
    ZipMap(emptySlots, sources[..Min(|emptySlots|, |sources|)])
  }

  /**
   * A relocation plan over n rows: destinations and sources are rows below
   * n, no row is both a destination and a source, and no source serves
   * two destinations.
   */
  predicate IsPlan(pm: map<nat, nat>, n: nat) {
    && (forall d :: d in pm ==> d < n && pm[d] < n && pm[d] !in pm)
    && (forall d, e :: d in pm && e in pm && d != e ==> pm[d] != pm[e])
  }

  /** The slots of prev_map are its keys, in order: slot t maps to the t-th largest unit outside the slots. */
  lemma PrevMapAt(n: nat, emptySlots: seq<nat>)
    requires Distinct(emptySlots) && |emptySlots| <= |Descending(n, emptySlots)|
    ensures var pm := PrevMap(n, emptySlots);
      && (forall d :: d in pm <==> d in emptySlots)
      && (forall t :: 0 <= t < |emptySlots| ==> pm[emptySlots[t]] == Descending(n, emptySlots)[t])
  {
    var sources := Descending(n, emptySlots);
    var k := |emptySlots|;
    var values := sources[..k];
    assert PrevMap(n, emptySlots) == ZipMap(emptySlots, values);
    assert emptySlots[..k] == emptySlots;
    forall t | 0 <= t < k ensures ZipMap(emptySlots, values)[emptySlots[t]] == sources[t] {
      ZipMapAt(emptySlots, values, t);
    }
  }

  /** PrevMapAt for one slot: slot t maps to the t-th largest unit outside the slots. */
  lemma PrevMapSlot(n: nat, emptySlots: seq<nat>, t: nat)
    requires Distinct(emptySlots) && t < |emptySlots| <= |Descending(n, emptySlots)|
    ensures emptySlots[t] in PrevMap(n, emptySlots)
    ensures PrevMap(n, emptySlots)[emptySlots[t]] == Descending(n, emptySlots)[t]
  {
    var values := Descending(n, emptySlots)[..|emptySlots|];
    ZipMapAt(emptySlots, values, t);
  }

  /** A slot's source is a unit below n that is not itself a slot. */
  lemma PrevMapSource(n: nat, emptySlots: seq<nat>, t: nat)
    requires Distinct(emptySlots) && t < |emptySlots| <= |Descending(n, emptySlots)|
    ensures var pm := PrevMap(n, emptySlots);
      emptySlots[t] in pm && pm[emptySlots[t]] < n && pm[emptySlots[t]] !in emptySlots
  {
    var sources := Descending(n, emptySlots);
    PrevMapSlot(n, emptySlots, t);
    DescendingMembers(n, emptySlots);
    assert sources[t] in sources;
  }

  /** Two different slots get two different sources. */
  lemma PrevMapApart(n: nat, emptySlots: seq<nat>, s: nat, t: nat)
    requires Distinct(emptySlots) && s < |emptySlots| <= |Descending(n, emptySlots)| && t < |emptySlots| && s != t
    ensures var pm := PrevMap(n, emptySlots);
      emptySlots[s] in pm && emptySlots[t] in pm && pm[emptySlots[s]] != pm[emptySlots[t]]
  {
    var sources := Descending(n, emptySlots);
    PrevMapSlot(n, emptySlots, s);
    PrevMapSlot(n, emptySlots, t);
    assert sources[s] != sources[t] by {
      if s < t {
        DescendingSorted(n, emptySlots, s, t);
      } else {
        DescendingSorted(n, emptySlots, t, s);
      }
    }
  }

  /**
   * When every slot is a distinct unit below n and there are at least as
   * many other units below n as slots, prev_map is a plan whose
   * destinations are exactly the slots.
   */
  lemma PrevMapPlan(n: nat, emptySlots: seq<nat>)
    requires Distinct(emptySlots) && forall t :: 0 <= t < |emptySlots| ==> emptySlots[t] < n
    requires |emptySlots| <= |Descending(n, emptySlots)|
    ensures IsPlan(PrevMap(n, emptySlots), n)
    ensures forall d :: d in PrevMap(n, emptySlots) <==> d in emptySlots
  {
    var pm := PrevMap(n, emptySlots);
    assert forall d :: d in pm <==> d in emptySlots by {
      PrevMapAt(n, emptySlots);
    }
    forall d | d in pm ensures d < n && pm[d] < n && pm[d] !in pm {
      var t :| 0 <= t < |emptySlots| && emptySlots[t] == d;
      PrevMapSource(n, emptySlots, t);
    }
    forall d, e | d in pm && e in pm && d != e ensures pm[d] != pm[e] {
      var s :| 0 <= s < |emptySlots| && emptySlots[s] == d;
      var t :| 0 <= t < |emptySlots| && emptySlots[t] == e;
      PrevMapApart(n, emptySlots, s, t);
    }
  }

  /** The sources prev_map picks are the largest units outside the slots: any other such unit is smaller than each of them. */
  lemma PrevMapLargest(n: nat, emptySlots: seq<nat>, d: nat, u: nat)
    requires Distinct(emptySlots) && |emptySlots| <= |Descending(n, emptySlots)|
    requires d in PrevMap(n, emptySlots) && u < n && u !in emptySlots && u !in PrevMap(n, emptySlots).Values
    ensures u < PrevMap(n, emptySlots)[d]
  {
    var sources := Descending(n, emptySlots);
    var pm := PrevMap(n, emptySlots);
    PrevMapAt(n, emptySlots);
    var t :| 0 <= t < |emptySlots| && emptySlots[t] == d;
    assert u in sources by {
      DescendingMembers(n, emptySlots);
    }
    var p :| 0 <= p < |sources| && sources[p] == u;
    if p < |emptySlots| {
      assert false;
    }
    DescendingSorted(n, emptySlots, t, p);
  }

  /** Among four units with slots 0 and 2 freed, the others largest first are 3 and 1. */
  lemma DescendingZeroTwo()
    ensures Descending(4, [0, 2]) == [3, 1]
  {
    var slots: seq<nat> := [0, 2];
    assert 0 in slots && 1 !in slots && 2 in slots && 3 !in slots;
    DescendingStep(1, slots);
    DescendingStep(2, slots);
    DescendingStep(3, slots);
    DescendingStep(4, slots);
  }

  /** prev_map over four units with slots 0 and 2 freed moves unit 3 into slot 0 and unit 1 into slot 2. */
  lemma PrevMapZeroTwo()
    ensures 0 in PrevMap(4, [0, 2]) && PrevMap(4, [0, 2])[0] == 3
    ensures 2 in PrevMap(4, [0, 2]) && PrevMap(4, [0, 2])[2] == 1
  {
    var slots: seq<nat> := [0, 2];
    assert Distinct(slots) && |Descending(4, slots)| == 2 && Descending(4, slots)[0] == 3 && Descending(4, slots)[1] == 1 by {
      DescendingZeroTwo();
    }
    PrevMapSlot(4, slots, 0);
    PrevMapSlot(4, slots, 1);
  }

  /**
   * The rows after `for dest, src in prev_map.items(): rows[dest] =
   * rows[src]; rows[src] = fill` (DLModels.py:429-431 and 463-465): a
   * destination holds its source's row, a source holds fill, every other
   * row is unchanged. For a plan the result does not depend on the order
   * the dictionary yields its items.
   */
  function Relocated(m: Matrix, pm: map<nat, nat>, fill: Row): (r: Matrix)
    requires forall d :: d in pm ==> pm[d] < |m|
    ensures |r| == |m|
  {
    seq(|m|, i requires 0 <= i < |m| => if i in pm then m[pm[i]] else if i in pm.Values then fill else m[i])
  }

  /** Relocating the rows of a rows x width matrix with a fill of width entries keeps its shape. */
  lemma RelocatedShape(m: Matrix, rows: nat, width: nat, pm: map<nat, nat>, fill: Row)
    requires IsMatrix(m, rows, width) && |fill| == width && IsPlan(pm, rows)
    ensures IsMatrix(Relocated(m, pm, fill), rows, width)
  {
  }

  /** The empty plan moves nothing. */
  lemma RelocatedEmpty(m: Matrix, fill: Row)
    ensures Relocated(m, map[], fill) == m
  {
  }

  /** Moving one more entry of a plan: the rows for the larger part of the plan. */
  lemma RelocatedStep(m: Matrix, pm: map<nat, nat>, done: map<nat, nat>, dest: nat, fill: Row)
    requires IsPlan(pm, |m|) && dest in pm && dest !in done
    requires forall d :: d in done ==> d in pm && done[d] == pm[d]
    ensures var r := Relocated(m, done, fill);
      Relocated(m, done[dest := pm[dest]], fill) == r[dest := r[pm[dest]]][pm[dest] := fill]
  {
    var src := pm[dest];
    var next := done[dest := src];
    var r := Relocated(m, done, fill);
    assert src !in done && src !in done.Values;
    var lhs, rhs := Relocated(m, next, fill), r[dest := r[src]][src := fill];
    forall v ensures v in next.Values <==> v in done.Values || v == src {
      if v in next.Values {
        var d :| d in next && next[d] == v;
        if d != dest {
          assert done[d] == v;
        }
      }
      if v in done.Values {
        var d :| d in done && done[d] == v;
        assert next[d] == v;
      }
      if v == src {
        assert next[dest] == src;
      }
    }
    assert dest != src;
    assert src < |m|;
    assert r[src] == m[src];
    forall i | 0 <= i < |m| ensures lhs[i] == rhs[i] {
      if i == dest {
        assert lhs[i] == m[src];
      } else if i == src {
        assert src !in next && src in next.Values;
      } else {
        assert i in next <==> i in done;
        assert i in next.Values <==> i in done.Values;
      }
    }
  }

  /**
   * The move loop of DLModels.py:429-431 and 463-465, taking the plan's
   * entries in whatever order the dictionary yields them: the result is
   * always the order-free relocation.
   */
  method MoveRows(m: Matrix, pm: map<nat, nat>, fill: Row) returns (r: Matrix)
    requires IsPlan(pm, |m|)
    ensures r == Relocated(m, pm, fill)
  {
    r := m;
    var todo := pm.Keys;
    ghost var done: map<nat, nat> := map[];
    assert r == Relocated(m, done, fill);
    while todo != {}
      invariant todo !! done.Keys && todo + done.Keys == pm.Keys
      invariant forall d :: d in done ==> done[d] == pm[d]
      invariant r == Relocated(m, done, fill)
      decreases todo
    {
      var dest :| dest in todo;
      var src := pm[dest];
      assert Relocated(m, done[dest := src], fill) == r[dest := r[src]][src := fill] by {
        RelocatedStep(m, pm, done, dest, fill);
      }
      r := r[dest := r[src]][src := fill];
      todo := todo - {dest};
      done := done[dest := src];
    }
    assert done == pm;
  }

  /**
   * np.zeros((rows, width)) with the top-left corner of m copied in
   * (DLModels.py:438-439): row i below |m| is m[i] cut or zero-padded to
   * width, later rows are zero.
   */
  function Embed(m: Matrix, rows: nat, width: nat): (r: Matrix)
    ensures IsMatrix(r, rows, width)
  {
    var r := seq(rows, i requires 0 <= i < rows => if i < |m| then Resize(m[i], width) else Zeros(width));
    assert forall i :: 0 <= i < rows ==> |r[i]| == width by {
      forall i | 0 <= i < rows ensures |r[i]| == width {
        if i < |m| {
          assert r[i] == Resize(m[i], width);
        } else {
          assert r[i] == Zeros(width);
        }
      }
    }
    r
  }

  /** new_layer_weights[slots] = draws (DLModels.py:442): row slots[t] takes the t-th drawn row. */
  function Refill(m: Matrix, slots: seq<nat>, draw: nat -> Row): (r: Matrix)
    requires forall t :: 0 <= t < |slots| ==> slots[t] < |m|
    ensures |r| == |m|
    decreases |slots|
  {
    if slots == [] then m
    else Refill(m, slots[..|slots| - 1], draw)[slots[|slots| - 1] := draw(|slots| - 1)]
  }

  /** A row not listed keeps its contents. */
  lemma {:induction false} RefillKeeps(m: Matrix, slots: seq<nat>, draw: nat -> Row, i: nat)
    requires forall t :: 0 <= t < |slots| ==> slots[t] < |m|
    requires i < |m| && i !in slots
    ensures Refill(m, slots, draw)[i] == m[i]
    decreases |slots|
  {
    if slots != [] {
      assert forall x :: x in slots[..|slots| - 1] ==> x in slots;
      RefillKeeps(m, slots[..|slots| - 1], draw, i);
    }
  }

  /** With distinct slots, the slot at position t holds the t-th draw. */
  lemma {:induction false} RefillSets(m: Matrix, slots: seq<nat>, draw: nat -> Row, t: nat)
    requires forall s :: 0 <= s < |slots| ==> slots[s] < |m|
    requires Distinct(slots) && t < |slots|
    ensures Refill(m, slots, draw)[slots[t]] == draw(t)
    decreases |slots|
  {
    var last := |slots| - 1;
    if t < last {
      assert slots[t] != slots[last];
      RefillSets(m, slots[..last], draw, t);
    }
  }

  /** Refilling a rows x width matrix with draws of width entries keeps its shape. */
  lemma RefillShape(m: Matrix, rows: nat, width: nat, slots: seq<nat>, draw: nat -> Row)
    requires IsMatrix(m, rows, width) && forall t :: 0 <= t < |slots| ==> slots[t] < rows
    requires forall t :: |draw(t)| == width
    ensures IsMatrix(Refill(m, slots, draw), rows, width)
    decreases |slots|
  {
    if slots != [] {
      RefillShape(m, rows, width, slots[..|slots| - 1], draw);
    }
  }

  /** [slot for slot in slots if slot < bound] (DLModels.py:441) */
  function Below(slots: seq<nat>, bound: nat): (r: seq<nat>)
    ensures forall x: nat :: x in r <==> x in slots && x < bound
    ensures (forall x: nat :: x in slots ==> x < bound) ==> r == slots
    decreases |slots|
  {
    if slots == [] then []
    else
      var rest := Below(slots[1..], bound);
      assert slots == [slots[0]] + slots[1..];
      assert forall x: nat :: x in slots[1..] ==> x in slots;
      var r := (if slots[0] < bound then [slots[0]] else []) + rest;
      assert (forall x: nat :: x in slots ==> x < bound) ==> r == slots by {
        if forall x: nat :: x in slots ==> x < bound {
          assert slots[0] in slots && rest == slots[1..];
        }
      }
      r
  }

  /** list(range(lo, hi)) */
  function Span(lo: nat, hi: nat): (r: seq<nat>)
    ensures |r| == if hi <= lo then 0 else hi - lo
    ensures forall t :: 0 <= t < |r| ==> r[t] == lo + t
  {
    if hi <= lo then [] else seq(hi - lo, t requires 0 <= t < hi - lo => lo + t)
  }

  /** A distinct run of values below lo followed by the run lo..hi-1 is distinct. */
  lemma DistinctThenSpan(a: seq<nat>, lo: nat, hi: nat)
    requires Distinct(a) && forall t :: 0 <= t < |a| ==> a[t] < lo
    ensures Distinct(a + Span(lo, hi))
  {
    var r := a + Span(lo, hi);
    forall s, t | 0 <= s < t < |r| ensures r[s] != r[t] {
      if t < |a| {
        assert r[s] == a[s] && r[t] == a[t];
      } else if s >= |a| {
        assert r[s] == lo + (s - |a|) && r[t] == lo + (t - |a|);
      } else {
        assert r[s] == a[s] && r[t] == lo + (t - |a|);
      }
    }
  }
}
