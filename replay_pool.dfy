/**
 * The Pool of DLModels.py: a fixed-capacity ring buffer of training rows and
 * their integer labels that acts as a queue. New rows are written at the
 * write position, wrapping past the end, and once the pool is full each new
 * row replaces the oldest one.
 *
 * The queue behaviour is stated with two ghost histories, added and addedY,
 * holding every row and label added since the pool was created or last
 * cleared. Valid() says that the occupied slots, read oldest first from the
 * write position backwards, are exactly the last size entries of that
 * history, and that size and position are what the history's length makes
 * them.
 */
module ReplayPool {
  import opened Arith
  import opened Matrices

  /** The slice write buf[pos:pos+|x|] = x that the pool's Theano update performs. */
  function Overwrite<T>(buf: seq<T>, pos: nat, x: seq<T>): (r: seq<T>)
    requires pos + |x| <= |buf|
    ensures |r| == |buf|
    ensures forall i :: 0 <= i < |x| ==> r[pos + i] == x[i]
    ensures forall k :: 0 <= k < |buf| && !(pos <= k < pos + |x|) ==> r[k] == buf[k]
  {
    buf[..pos] + x + buf[pos + |x|..]
  }

  /** buf after writing x from slot pos onwards, wrapping round to slot 0 past the end. */
  function RingWrite<T>(buf: seq<T>, pos: nat, x: seq<T>): (r: seq<T>)
    requires pos < |buf| && |x| <= |buf|
    ensures |r| == |buf|
  {
    var n := |buf|;
    seq(n, k requires 0 <= k < n => if Wrap(k - pos, n) < |x| then x[Wrap(k - pos, n)] else buf[k])
  }

  /**
   * What a ring write does: the i-th new entry lands i slots after pos,
   * counted round the end of the buffer, and every slot it does not reach
   * keeps its old entry.
   */
  lemma RingWriteAt<T>(buf: seq<T>, pos: nat, x: seq<T>)
    requires pos < |buf| && |x| <= |buf|
    ensures forall i :: 0 <= i < |x| ==> RingWrite(buf, pos, x)[Wrap(pos + i, |buf|)] == x[i]
    ensures forall k :: 0 <= k < |buf| && Wrap(k - pos, |buf|) >= |x| ==> RingWrite(buf, pos, x)[k] == buf[k]
  {
    var n, r := |buf|, RingWrite(buf, pos, x);
    forall i | 0 <= i < |x| ensures r[Wrap(pos + i, n)] == x[i] {
      var k := Wrap(pos + i, n);
      assert Wrap(k - pos, n) == i;
    }
  }

  /** The size slots that end just before slot pos, oldest first. */
  function Window<T>(buf: seq<T>, size: nat, pos: nat): (w: seq<T>)
    requires size <= |buf| && pos < |buf|
    ensures |w| == size
  {
    seq(size, i requires 0 <= i < size => buf[Wrap(pos - size + i, |buf|)])
  }

  /** A write that does not reach past the end of the buffer is a ring write that does not wrap. */
  lemma OverwriteIsRingWrite<T>(buf: seq<T>, pos: nat, x: seq<T>)
    requires pos < |buf| && pos + |x| <= |buf|
    ensures Overwrite(buf, pos, x) == RingWrite(buf, pos, x)
  {
    var a, b := Overwrite(buf, pos, x), RingWrite(buf, pos, x);
    RingWriteAt(buf, pos, x);
    forall k | 0 <= k < |buf| ensures a[k] == b[k] {
      if pos <= k < pos + |x| {
        assert a[pos + (k - pos)] == x[k - pos];
      }
    }
  }

  /**
   * Writing x in two parts, first up to the end of the buffer and then the
   * rest from slot 0, is one ring write of x: the split that Pool.add makes.
   */
  lemma RingWriteSplit<T>(buf: seq<T>, pos: nat, x: seq<T>)
    requires pos < |buf| && |x| <= |buf| && pos + |x| > |buf|
    ensures var a := |buf| - pos;
      RingWrite(RingWrite(buf, pos, x[..a]), 0, x[a..]) == RingWrite(buf, pos, x)
  {
    var n, a := |buf|, |buf| - pos;
    var mid := RingWrite(buf, pos, x[..a]);
    var lhs, rhs := RingWrite(mid, 0, x[a..]), RingWrite(buf, pos, x);
    forall k | 0 <= k < n ensures lhs[k] == rhs[k] {
      var w := Wrap(k - pos, n);
      assert Wrap(k - 0, n) == k;
      if k < pos {
        assert w == k + a;
        if k < |x| - a {
          assert lhs[k] == x[a..][k] == x[k + a];
        } else {
          assert lhs[k] == mid[k] == buf[k];
        }
      } else {
        assert w == k - pos && w < a;
        assert lhs[k] == mid[k] == x[..a][w];
      }
    }
  }

  /** Suffix arithmetic: dropping d entries of (a's last s entries, then c) leaves the last s' entries of a + c. */
  lemma SuffixAppend<T>(a: seq<T>, s: nat, c: seq<T>, s2: nat)
    requires s <= |a| && s2 <= s + |c|
    ensures (a[|a| - s..] + c)[s + |c| - s2..] == (a + c)[|a| + |c| - s2..]
  {
    var lhs, rhs := (a[|a| - s..] + c)[s + |c| - s2..], (a + c)[|a| + |c| - s2..];
    assert |lhs| == |rhs|;
    forall i | 0 <= i < |lhs| ensures lhs[i] == rhs[i] {
      var t := s + |c| - s2 + i;
      if t < s {
        assert lhs[i] == a[|a| - s + t];
      } else {
        assert lhs[i] == c[t - s];
      }
    }
  }

  /** Window entry i of the new state, when it falls among the old entries that the write kept. */
  lemma WindowKeptEntry<T>(buf: seq<T>, size: nat, pos: nat, x: seq<T>, i: nat)
    requires size <= |buf| && pos < |buf| && |x| <= |buf|
    requires var s2 := Min(size + |x|, |buf|); i < s2 && size + |x| - s2 + i < size
    ensures var n := |buf|; var s2 := Min(size + |x|, n);
      Window(RingWrite(buf, pos, x), s2, Wrap(pos + |x|, n))[i] == Window(buf, size, pos)[size + |x| - s2 + i]
  {
    var n := |buf|;
    var s2 := Min(size + |x|, n);
    var t := size + |x| - s2 + i;
    var k := Wrap(Wrap(pos + |x|, n) - s2 + i, n);
    assert Wrap(pos - size + t, n) == k;
    assert Wrap(k - pos, n) >= |x|;
    RingWriteAt(buf, pos, x);
  }

  /** Window entry i of the new state, when it is one of the written entries. */
  lemma WindowNewEntry<T>(buf: seq<T>, size: nat, pos: nat, x: seq<T>, i: nat)
    requires size <= |buf| && pos < |buf| && |x| <= |buf|
    requires var s2 := Min(size + |x|, |buf|); i < s2 && size <= size + |x| - s2 + i
    ensures var n := |buf|; var s2 := Min(size + |x|, n);
      Window(RingWrite(buf, pos, x), s2, Wrap(pos + |x|, n))[i] == x[size + |x| - s2 + i - size]
  {
    var n := |buf|;
    var s2 := Min(size + |x|, n);
    var t := size + |x| - s2 + i;
    var k := Wrap(Wrap(pos + |x|, n) - s2 + i, n);
    assert Wrap(pos + (t - size), n) == k;
    RingWriteAt(buf, pos, x);
  }

  /**
   * One _ring_add as a queue operation: after writing x at pos, the window
   * that ends at the new position and has the new size is what the old
   * window followed by x leaves once the oldest entries past the capacity
   * are dropped.
   */
  lemma RingAddWindow<T>(buf: seq<T>, size: nat, pos: nat, x: seq<T>)
    requires size <= |buf| && pos < |buf| && |x| <= |buf|
    ensures var n := |buf|; var s2 := Min(size + |x|, n);
      Window(RingWrite(buf, pos, x), s2, Wrap(pos + |x|, n))
        == (Window(buf, size, pos) + x)[size + |x| - s2..]
  {
    var n := |buf|;
    var s2 := Min(size + |x|, n);
    var lhs := Window(RingWrite(buf, pos, x), s2, Wrap(pos + |x|, n));
    var w := Window(buf, size, pos);
    var rhs := (w + x)[size + |x| - s2..];
    forall i | 0 <= i < s2 ensures lhs[i] == rhs[i] {
      if size + |x| - s2 + i < size {
        WindowKeptEntry(buf, size, pos, x, i);
      } else {
        WindowNewEntry(buf, size, pos, x, i);
      }
    }
  }

  /**
   * The queue relation: buf, with size occupied slots ending just before the
   * write position pos, holds the last size entries of the history hist, and
   * size and pos are what hist's length makes them.
   */
  ghost predicate Holds<T>(buf: seq<T>, size: nat, pos: nat, hist: seq<T>) {
    && 0 < |buf| && size <= |buf| && pos < |buf|
    && size == Min(|hist|, |buf|)
    && pos == |hist| % |buf|
    && Window(buf, size, pos) == hist[|hist| - size..]
  }

  /** A ring add of x keeps the queue relation with x appended to the history. */
  lemma RingAddKeeps<T>(buf: seq<T>, size: nat, pos: nat, hist: seq<T>, x: seq<T>)
    requires Holds(buf, size, pos, hist) && |x| <= |buf|
    ensures Holds(RingWrite(buf, pos, x), Min(size + |x|, |buf|), (pos + |x|) % |buf|, hist + x)
  {
    var n := |buf|;
    WrapIsMod(pos + |x|, n);
    ModAdd(|hist|, |x|, n);
    RingAddWindow(buf, size, pos, x);
    SuffixAppend(hist, size, x, Min(size + |x|, n));
  }

  /**
   * The counters after the two ring adds of a split write are those of one
   * ring add of the whole batch: the first add ends exactly at the buffer end,
   * so the second starts from position 0.
   */
  lemma SplitCounters(n: nat, size: nat, pos: nat, len: nat)
    requires 0 < n && size <= n && pos < n && len <= n && pos + len > n
    ensures (pos + (n - pos)) % n == 0
    ensures Min(Min(size + (n - pos), n) + (len - (n - pos)), n) == Min(size + len, n)
    ensures (0 + (len - (n - pos))) % n == (pos + len) % n
  {
    ModSelf(n);
    WrapIsMod(pos + len, n);
    WrapIsMod(len - (n - pos), n);
  }

  /** Every row of m has w entries. */
  predicate RowsOfWidth(m: seq<Row>, w: nat) {
    forall i :: 0 <= i < |m| ==> |m[i]| == w
  }

  /** Writing rows of width w into a buffer of rows of width w keeps every row at width w. */
  lemma RingWriteWidth(buf: seq<Row>, pos: nat, x: seq<Row>, w: nat)
    requires pos < |buf| && |x| <= |buf|
    requires RowsOfWidth(buf, w) && RowsOfWidth(x, w)
    ensures RowsOfWidth(RingWrite(buf, pos, x), w)
  {
    var r := RingWrite(buf, pos, x);
    forall k | 0 <= k < |r| ensures |r[k]| == w {
      if Wrap(k - pos, |buf|) < |x| {
        assert r[k] == x[Wrap(k - pos, |buf|)];
      }
    }
  }

  /** RingAddKeeps, stated for a given new state. */
  lemma RingAddKeepsAt<T>(buf: seq<T>, size: nat, pos: nat, hist: seq<T>, x: seq<T>,
                          buf2: seq<T>, size2: nat, pos2: nat, hist2: seq<T>)
    requires Holds(buf, size, pos, hist) && |x| <= |buf|
    requires buf2 == RingWrite(buf, pos, x) && size2 == Min(size + |x|, |buf|)
    requires pos2 == (pos + |x|) % |buf| && hist2 == hist + x
    ensures Holds(buf2, size2, pos2, hist2)
  {
    RingAddKeeps(buf, size, pos, hist, x);
  }

  /** A pool of capacity maxSize whose rows have rowSize entries (DLModels.py:250-295). */
  class Pool {
    const rowSize: nat
    const maxSize: nat
    var size: nat
    var position: nat
    const data: array<Row>
    const dataY: array<int>
    /** Every row and every label added since creation or the last clear, in order. */
    ghost var added: seq<Row>
    ghost var addedY: seq<int>

    /** The buffers have the capacity's length, every row has rowSize entries, and both counters are in range. */
    ghost predicate Shaped()
      reads this, data, dataY
    {
      && maxSize > 0
      && data.Length == maxSize && dataY.Length == maxSize
      && RowsOfWidth(data[..], rowSize)
      && size <= maxSize && position < maxSize
    }

    /** Shaped, and the occupied slots hold the last size rows and labels of the history. */
    ghost predicate Valid()
      reads this, data, dataY
    {
      && Shaped()
      && Holds(data[..], size, position, added)
      && Holds(dataY[..], size, position, addedY)
    }

    /** The rows the pool holds, oldest first. */
    function Contents(): (c: seq<Row>)
      reads this, data, dataY
      requires Valid()
      ensures |c| == size && c == added[|added| - size..]
    {
      Window(data[..], size, position)
    }

    /** The labels the pool holds, oldest first. */
    function Labels(): (c: seq<int>)
      reads this, data, dataY
      requires Valid()
      ensures |c| == size && c == addedY[|addedY| - size..]
    {
      Window(dataY[..], size, position)
    }

    /**
     * Pool(row_size, max_size): an empty pool. The storage numpy leaves
     * uninitialised starts as zero rows and zero labels here; no slot is
     * part of the contents before it is written.
     */
    constructor (rowSize: nat, maxSize: nat)
      requires maxSize > 0
      ensures Valid() && fresh(data) && fresh(dataY)
      ensures this.rowSize == rowSize && this.maxSize == maxSize
      ensures size == 0 && position == 0 && added == [] && addedY == []
    {
      this.rowSize := rowSize;
      this.maxSize := maxSize;
      size := 0;
      position := 0;
      data := new Row[maxSize](_ => Zeros(rowSize));
      dataY := new int[maxSize](_ => 0);
      added := [];
      addedY := [];
    }

    /** The compiled Theano update: data[pos:pos+|x|] = x and data_y[pos:pos+|y|] = y. */
    method Update(pos: nat, x: seq<Row>, y: seq<int>)
      requires data.Length == maxSize && dataY.Length == maxSize
      requires pos + |x| <= maxSize && |x| == |y|
      modifies data, dataY
      ensures data[..] == Overwrite(old(data[..]), pos, x)
      ensures dataY[..] == Overwrite(old(dataY[..]), pos, y)
    {
      forall i | 0 <= i < |x| {
        data[pos + i] := x[i];
      }
      forall i | 0 <= i < |y| {
        dataY[pos + i] := y[i];
      }
    }

    /**
     * _ring_add: writes x and y at the write position, then grows the size
     * up to the capacity and advances the position modulo the capacity.
     * Pool.add only calls it with rows that fit before the end. That one
     * ring add keeps the queue relation is RingAddKeeps.
     */
    method RingAdd(x: seq<Row>, y: seq<int>)
      requires Shaped()
      requires |x| == |y| && position + |x| <= maxSize
      requires RowsOfWidth(x, rowSize)
      modifies this, data, dataY
      ensures Shaped()
      ensures data[..] == RingWrite(old(data[..]), old(position), x)
      ensures dataY[..] == RingWrite(old(dataY[..]), old(position), y)
      ensures size == Min(old(size) + |x|, maxSize)
      ensures position == (old(position) + |x|) % maxSize
      ensures added == old(added) + x && addedY == old(addedY) + y
    {
      ghost var buf, bufY := data[..], dataY[..];
      var s0, p0 := size, position;
      Update(position, x, y);
      OverwriteIsRingWrite(buf, p0, x);
      OverwriteIsRingWrite(bufY, p0, y);
      RingWriteWidth(buf, p0, x, rowSize);
      size := Min(s0 + |x|, maxSize);
      position := (p0 + |x|) % maxSize;
      added := added + x;
      addedY := addedY + y;
    }

    /**
     * The wrapping branch of Pool.add: a ring add of the rows that fit before
     * the end of the buffer, then one of the rest from position 0. Together
     * they are one ring add of the whole batch (RingWriteSplit, SplitCounters).
     */
    method AddWrapping(x: seq<Row>, y: seq<int>)
      requires Shaped()
      requires |x| == |y| && |x| <= maxSize && |x| + position > maxSize
      requires RowsOfWidth(x, rowSize)
      modifies this, data, dataY
      ensures Shaped()
      ensures data[..] == RingWrite(old(data[..]), old(position), x)
      ensures dataY[..] == RingWrite(old(dataY[..]), old(position), y)
      ensures size == Min(old(size) + |x|, maxSize)
      ensures position == (old(position) + |x|) % maxSize
      ensures added == old(added) + x && addedY == old(addedY) + y
    {
      ghost var buf, bufY, p0 := data[..], dataY[..], position;
      var available := maxSize - position;
      var x1, y1, x2, y2 := x[..available], y[..available], x[available..], y[available..];
      assert x1 + x2 == x && y1 + y2 == y;
      SplitCounters(maxSize, size, position, |x|);
      RingWriteSplit(buf, position, x);
      RingWriteSplit(bufY, position, y);
      RingAdd(x1, y1);
      ghost var mid, midY := data[..], dataY[..];
      RingAdd(x2, y2);
      assert data[..] == RingWrite(mid, 0, x2);
      assert dataY[..] == RingWrite(midY, 0, y2);
    }

    /**
     * Pool.add: appends the rows x with labels y to the queue, splitting the
     * write in two when it runs past the end of the buffer. Batches larger
     * than the capacity are excluded here (see README).
     */
    method Add(x: seq<Row>, y: seq<int>)
      requires Valid()
      requires |x| == |y| && |x| <= maxSize
      requires RowsOfWidth(x, rowSize)
      modifies this, data, dataY
      ensures Valid()
      ensures data[..] == RingWrite(old(data[..]), old(position), x)
      ensures dataY[..] == RingWrite(old(dataY[..]), old(position), y)
      ensures size == Min(old(size) + |x|, maxSize)
      ensures position == (old(position) + |x|) % maxSize
      ensures added == old(added) + x && addedY == old(addedY) + y
    {
      ghost var buf, bufY, s0, p0, h, hY := data[..], dataY[..], size, position, added, addedY;
      if |x| + position > maxSize {
        AddWrapping(x, y);
      } else {
        RingAdd(x, y);
      }
      RingAddKeepsAt(buf, s0, p0, h, x, data[..], size, position, added);
      RingAddKeepsAt(bufY, s0, p0, hY, y, dataY[..], size, position, addedY);
    }

    /** clear: the pool becomes empty; the stored rows stay in the buffer but no longer count. */
    method Clear()
      requires Valid()
      modifies this
      ensures Valid()
      ensures size == 0 && position == 0 && added == [] && addedY == []
      ensures Contents() == []
    {
      size := 0;
      position := 0;
      added := [];
      addedY := [];
    }
  }

  /**
   * A pool of capacity 5 holding one-entry rows: adding rows 1, 2, 3 and
   * then 4, 5, 6, 7 wraps the second batch, leaving the buffer 6, 7, 3, 4, 5
   * with the write position at slot 2 and the queue holding 3 to 7.
   */
  method WrapScenario() returns (buffer: seq<Row>, size: nat, position: nat, contents: seq<Row>)
    ensures buffer == [[6.0], [7.0], [3.0], [4.0], [5.0]]
    ensures size == 5 && position == 2
    ensures contents == [[3.0], [4.0], [5.0], [6.0], [7.0]]
  {
    var pool := new Pool(1, 5);
    var x1, x2 := [[1.0], [2.0], [3.0]], [[4.0], [5.0], [6.0], [7.0]];
    ghost var start := pool.data[..];
    pool.Add(x1, [1, 2, 3]);
    assert pool.position == 3 by { ModOfSmall(3, 5); }
    pool.Add(x2, [4, 5, 6, 7]);
    buffer := pool.data[..];
    WrapScenarioBuffer(start, x1, x2);
    size := pool.size;
    position := pool.position;
    assert position == 2 by { WrapIsMod(7, 5); }
    contents := pool.Contents();
    assert pool.added == x1 + x2;
  }

  /** The buffer side of WrapScenario, whatever the five slots held before. */
  lemma WrapScenarioBuffer(start: seq<Row>, x1: seq<Row>, x2: seq<Row>)
    requires |start| == 5
    requires x1 == [[1.0], [2.0], [3.0]] && x2 == [[4.0], [5.0], [6.0], [7.0]]
    ensures RingWrite(RingWrite(start, 0, x1), 3, x2) == [[6.0], [7.0], [3.0], [4.0], [5.0]]
  {
    var mid := RingWrite(start, 0, x1);
    RingWriteAt(start, 0, x1);
    assert Wrap(0 + 2, 5) == 2;
    assert mid[2] == x1[2];
    var buffer := RingWrite(mid, 3, x2);
    RingWriteAt(mid, 3, x2);
    assert Wrap(3 + 0, 5) == 3 && Wrap(3 + 1, 5) == 4 && Wrap(3 + 2, 5) == 0 && Wrap(3 + 3, 5) == 1;
    assert buffer[3] == x2[0] && buffer[4] == x2[1] && buffer[0] == x2[2] && buffer[1] == x2[3];
    assert Wrap(2 - 3, 5) == 4;
    assert buffer[2] == mid[2];
  }
}
