/** A ring of cached windows as a sequence: order, size, agreement with the file, and the reader's reach. */
module Windows {
  import opened Bytes

  datatype Window = Window(start: nat, bytes: seq<Byte>) {
    function End(): nat { start + |bytes| }

    /** The reader at `frontier` is inside this window. */
    predicate Inside(frontier: nat) { start <= frontier < End() }

    /** The window holds the range of `len` bytes at `off`. */
    predicate Covers(off: nat, len: nat) { start <= off && SaturatingAdd(off, len) <= End() }
  }

  predicate Sorted(ws: seq<Window>) { forall i, j | 0 <= i < j < |ws| :: ws[i].start < ws[j].start }

  function Total(ws: seq<Window>): nat {
    if ws == [] then 0 else Total(ws[..|ws| - 1]) + |ws[|ws| - 1].bytes|
  }

  /** The window's bytes are the file's at that place. */
  predicate Copies(w: Window, file: seq<Byte>) { w.End() <= |file| && w.bytes == file[w.start..w.End()] }

  predicate Agrees(ws: seq<Window>, file: seq<Byte>) { forall i | 0 <= i < |ws| :: Copies(ws[i], file) }

  /** The furthest end among windows the reader is inside; 0 when there is none. */
  function Reach(ws: seq<Window>, frontier: nat): (r: nat)
    ensures forall i | 0 <= i < |ws| && ws[i].Inside(frontier) :: ws[i].End() <= r
    ensures r == 0 || exists i :: 0 <= i < |ws| && ws[i].Inside(frontier) && ws[i].End() == r
  {
    if ws == [] then 0
    else
      var last, before := ws[|ws| - 1], Reach(ws[..|ws| - 1], frontier);
      if last.Inside(frontier) && before < last.End() then last.End() else before
  }

  function Without(ws: seq<Window>, i: nat): seq<Window>
    requires i < |ws|
  {
    ws[..i] + ws[i + 1..]
  }

  /** Where a window goes: in place of one with its start, else in order. */
  function Place(ws: seq<Window>, w: Window): seq<Window> {
    if ws == [] then [w]
    else if w.start < ws[0].start then [w] + ws
    else if w.start == ws[0].start then [w] + ws[1..]
    else [ws[0]] + Place(ws[1..], w)
  }

  /** A range below 2^64 - 1 is covered when the window holds every byte of it. */
  lemma CoversExactly(w: Window, off: nat, len: nat)
    requires len > 0 && off + len < U64_MAX
    ensures w.Covers(off, len) <==> forall x: nat | off <= x < off + len :: w.Inside(x)
  {
    if forall x: nat | off <= x < off + len :: w.Inside(x) {
      assert w.Inside(off) && w.Inside(off + len - 1);
    }
  }

  lemma {:induction false} TotalConcat(a: seq<Window>, b: seq<Window>)
    ensures Total(a + b) == Total(a) + Total(b)
  {
    if b == [] {
      assert a + b == a;
    } else {
      assert (a + b)[..|a + b| - 1] == a + b[..|b| - 1];
      TotalConcat(a, b[..|b| - 1]);
    }
  }

  lemma TotalSplit(ws: seq<Window>, i: nat)
    requires i < |ws|
    ensures Total(ws) == Total(ws[..i]) + |ws[i].bytes| + Total(ws[i + 1..])
  {
    assert ws == ws[..i] + [ws[i]] + ws[i + 1..];
    TotalConcat(ws[..i] + [ws[i]], ws[i + 1..]);
    assert (ws[..i] + [ws[i]])[..i] == ws[..i];
  }

  lemma TotalWithout(ws: seq<Window>, i: nat)
    requires i < |ws|
    ensures Total(Without(ws, i)) == Total(ws) - |ws[i].bytes| && Total(ws) >= |ws[i].bytes|
  {
    TotalSplit(ws, i);
    TotalConcat(ws[..i], ws[i + 1..]);
  }

  lemma TotalReplaced(ws: seq<Window>, i: nat, w: Window)
    requires i < |ws|
    ensures Total(ws[i := w]) == Total(ws) - |ws[i].bytes| + |w.bytes|
  {
    TotalSplit(ws, i);
    TotalSplit(ws[i := w], i);
    assert ws[i := w][..i] == ws[..i] && ws[i := w][i + 1..] == ws[i + 1..];
  }

  lemma TotalInserted(ws: seq<Window>, i: nat, w: Window)
    requires i <= |ws|
    ensures Total(Inserted(ws, w, i)) == Total(ws) + |w.bytes|
  {
    hide Total;
    var a, b := ws[..i], ws[i..];
    TotalConcat(a + [w], b);
    TotalConcat(a, [w]);
    TotalConcat(a, b);
    assert ws == a + b;
    TotalOne(w);
  }

  lemma TotalOne(w: Window)
    ensures Total([w]) == |w.bytes|
  {
    assert [w][..0] == [];
  }

  lemma WithoutSorted(ws: seq<Window>, i: nat)
    requires Sorted(ws) && i < |ws|
    ensures Sorted(Without(ws, i)) && forall x :: x in Without(ws, i) ==> x in ws
  {
  }

  lemma WithoutLength(ws: seq<Window>, i: nat)
    requires i < |ws|
    ensures |Without(ws, i)| == |ws| - 1
  {
  }

  lemma InsertedMembers(ws: seq<Window>, w: Window, i: nat)
    requires i <= |ws|
    ensures forall x | x in Inserted(ws, w, i) :: x == w || x in ws
  {
  }

  lemma FirstStarts(ws: seq<Window>)
    requires Sorted(ws) && ws != []
    ensures ws == [ws[0]] + ws[1..] && Sorted(ws[1..]) && forall x | x in ws[1..] :: ws[0].start < x.start
  {
  }

  lemma FirstSorted(first: Window, rest: seq<Window>)
    requires Sorted(rest) && forall x | x in rest :: first.start < x.start
    ensures Sorted([first] + rest)
  {
    var ws := [first] + rest;
    forall i, j | 0 <= i < j < |ws|
      ensures ws[i].start < ws[j].start
    {
      assert ws[j] == rest[j - 1] && rest[j - 1] in rest;
      if i > 0 { assert ws[i] == rest[i - 1]; }
    }
  }

  /** Placing keeps order, and every window but one with the same start. */
  lemma {:induction false} PlaceExactly(ws: seq<Window>, w: Window)
    requires Sorted(ws)
    ensures Sorted(Place(ws, w)) && forall x :: x in Place(ws, w) <==> x == w || (x in ws && x.start != w.start)
  {
    hide Sorted;
    if ws != [] {
      var first, rest := ws[0], ws[1..];
      FirstStarts(ws);
      if w.start < first.start {
        FirstSorted(w, ws);
      } else if w.start == first.start {
        FirstSorted(w, rest);
      } else {
        PlaceExactly(rest, w);
        FirstSorted(first, Place(rest, w));
      }
    } else {
      FirstSorted(w, []) by { NoneSorted(); }
      assert [w] + [] == [w];
    }
  }

  lemma NoneSorted()
    ensures Sorted([])
  {
  }

  /** Replacing the window found at its start is placing. */
  lemma {:induction false} PlaceFound(ws: seq<Window>, w: Window, i: nat)
    requires Sorted(ws) && i < |ws| && ws[i].start == w.start
    ensures Place(ws, w) == ws[i := w] && Sorted(ws[i := w])
  {
    if i > 0 {
      PlaceFound(ws[1..], w, i - 1);
      assert ws[i := w] == [ws[0]] + ws[1..][i - 1 := w];
    } else {
      assert ws[0 := w] == [w] + ws[1..];
    }
  }

  /** `i` splits the starts at `start`. */
  predicate SplitsAt(ws: seq<Window>, start: nat, i: nat) {
    i <= |ws| && (forall j | 0 <= j < i :: ws[j].start < start) && forall j | i <= j < |ws| :: start < ws[j].start
  }

  function Inserted(ws: seq<Window>, w: Window, i: nat): seq<Window>
    requires i <= |ws|
  {
    ws[..i] + [w] + ws[i..]
  }

  lemma InsertedSorted(ws: seq<Window>, w: Window, i: nat)
    requires Sorted(ws) && SplitsAt(ws, w.start, i)
    ensures Sorted(Inserted(ws, w, i))
  {
    var more := Inserted(ws, w, i);
    forall a, b | 0 <= a < b < |more|
      ensures more[a].start < more[b].start
    {
      assert a != i ==> more[a] == ws[if a < i then a else a - 1];
      assert b != i ==> more[b] == ws[if b < i then b else b - 1];
    }
  }

  /** Inserting at the index that splits the starts is placing. */
  lemma {:induction false} PlaceMissing(ws: seq<Window>, w: Window, i: nat)
    requires SplitsAt(ws, w.start, i)
    ensures Place(ws, w) == Inserted(ws, w, i)
  {
    if i > 0 {
      var rest := ws[1..];
      assert forall j | 0 <= j < |rest| :: rest[j] == ws[j + 1];
      PlaceMissing(rest, w, i - 1);
      InsertedStep(ws, w, i);
    } else {
      assert Inserted(ws, w, 0) == [w] + ws;
      assert ws != [] ==> w.start < ws[0].start;
    }
  }

  lemma InsertedStep(ws: seq<Window>, w: Window, i: nat)
    requires 0 < i <= |ws|
    ensures Inserted(ws, w, i) == [ws[0]] + Inserted(ws[1..], w, i - 1)
  {
    assert ws[..i] == [ws[0]] + ws[1..][..i - 1];
    assert ws[i..] == ws[1..][i - 1..];
  }

  predicate SomeBehind(ws: seq<Window>, frontier: nat) { exists i :: 0 <= i < |ws| && ws[i].End() <= frontier }

  predicate SomeAhead(ws: seq<Window>, frontier: nat) { exists i :: 0 <= i < |ws| && ws[i].start > frontier }

  /**
    The window to drop: the first one fully behind the reader, else the furthest one ahead of
    it, else, when the reader is inside every one, the first of least reach.
   */
  predicate IsVictim(ws: seq<Window>, frontier: nat, idx: nat) {
    idx < |ws| &&
    if SomeBehind(ws, frontier) then
      ws[idx].End() <= frontier && forall j | 0 <= j < idx :: ws[j].End() > frontier
    else if SomeAhead(ws, frontier) then
      ws[idx].start > frontier && forall j | idx < j < |ws| :: ws[j].start <= frontier
    else
      (forall j | 0 <= j < |ws| :: ws[idx].End() <= ws[j].End()) && forall j | 0 <= j < idx :: ws[idx].End() < ws[j].End()
  }

  /** `r` is what is left of `ws` once victims have gone until no more than `max` windows remain. */
  ghost predicate Trimmed(ws: seq<Window>, max: nat, frontier: nat, r: seq<Window>)
    decreases |ws|
  {
    if |ws| <= max then r == ws
    else exists idx: nat :: IsVictim(ws, frontier, idx) && Trimmed(Without(ws, idx), max, frontier, r)
  }

  lemma VictimUnique(ws: seq<Window>, frontier: nat, i: nat, j: nat)
    requires IsVictim(ws, frontier, i) && IsVictim(ws, frontier, j)
    ensures i == j
  {
    hide SomeBehind, SomeAhead;
    if i < j { NotBefore(ws, frontier, i, j); }
    if j < i { NotBefore(ws, frontier, j, i); }
  }

  lemma NotBefore(ws: seq<Window>, frontier: nat, i: nat, j: nat)
    requires IsVictim(ws, frontier, i) && IsVictim(ws, frontier, j)
    ensures i >= j
  {
    hide SomeBehind, SomeAhead;
    assert ws[i].End() <= ws[j].End() || ws[i].End() > ws[j].End();
  }

  /** There is only one way to trim, and it leaves as many windows as may stay. */
  lemma {:induction false} TrimmedOnce(ws: seq<Window>, max: nat, frontier: nat, r: seq<Window>, r2: seq<Window>)
    requires Trimmed(ws, max, frontier, r) && Trimmed(ws, max, frontier, r2)
    ensures r == r2 && |r| == Min(|ws|, max)
    decreases |ws|
  {
    hide SomeBehind, SomeAhead, Without;
    if |ws| > max {
      var i: nat :| IsVictim(ws, frontier, i) && Trimmed(Without(ws, i), max, frontier, r);
      var j: nat :| IsVictim(ws, frontier, j) && Trimmed(Without(ws, j), max, frontier, r2);
      VictimUnique(ws, frontier, i, j);
      WithoutLength(ws, i);
      TrimmedOnce(Without(ws, i), max, frontier, r, r2);
    }
  }

  lemma TrimStep(ws: seq<Window>, max: nat, frontier: nat, idx: nat)
    requires IsVictim(ws, frontier, idx) && idx < |ws| && |ws| > max
    ensures forall r | Trimmed(Without(ws, idx), max, frontier, r) :: Trimmed(ws, max, frontier, r)
  {
    hide IsVictim, Without;
    forall r | Trimmed(Without(ws, idx), max, frontier, r)
      ensures Trimmed(ws, max, frontier, r)
    {
    }
  }

  lemma TrimDone(ws: seq<Window>, max: nat, frontier: nat)
    requires |ws| <= max
    ensures Trimmed(ws, max, frontier, ws)
  {
  }

  lemma VictimIn(ws: seq<Window>, frontier: nat, i: nat)
    requires IsVictim(ws, frontier, i)
    ensures i < |ws|
  {
  }

  lemma VictimExposed(ws: seq<Window>, frontier: nat, idx: nat)
    requires IsVictim(ws, frontier, idx) && ws[idx].Inside(frontier)
    ensures forall i | 0 <= i < |ws| :: ws[i].Inside(frontier) && ws[idx].End() <= ws[i].End()
  {
  }

  lemma ReachUnique(ws: seq<Window>, frontier: nat, r: nat)
    requires forall i | 0 <= i < |ws| && ws[i].Inside(frontier) :: ws[i].End() <= r
    requires r == 0 || exists i :: 0 <= i < |ws| && ws[i].Inside(frontier) && ws[i].End() == r
    ensures Reach(ws, frontier) == r
  {
    hide Reach;
  }

  /** Dropping a window the reader is not inside, or that another outreaches, leaves the reach. */
  lemma ReachWithout(ws: seq<Window>, frontier: nat, i: nat)
    requires i < |ws|
    requires ws[i].Inside(frontier) ==>
               exists j :: 0 <= j < |ws| && j != i && ws[j].Inside(frontier) && ws[i].End() <= ws[j].End()
    ensures Reach(Without(ws, i), frontier) == Reach(ws, frontier)
  {
    hide Reach;
    var rest, r := Without(ws, i), Reach(ws, frontier);
    forall k | 0 <= k < |rest| && rest[k].Inside(frontier)
      ensures rest[k].End() <= r
    {
      assert rest[k] == ws[if k < i then k else k + 1];
    }
    if r != 0 {
      var k :| 0 <= k < |ws| && ws[k].Inside(frontier) && ws[k].End() == r;
      var j := k;
      if k == i { j :| 0 <= j < |ws| && j != i && ws[j].Inside(frontier) && ws[i].End() <= ws[j].End(); }
      assert rest[if j < i then j else j - 1] == ws[j];
    }
    ReachUnique(rest, frontier, r);
  }
}
