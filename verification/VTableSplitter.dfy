/** Splitting the vtable of a class into vectors of virtual functions. The layout of vtables is
    section 2.5 of the Itanium C++ ABI. */
module VTableSplitter {
  import opened Concatenation

  type Fun = nat

  // An entry of a vtable: a null pointer, an offset cast to a pointer, a function, an alias of
  // one, the type information, or anything else.
  datatype Entry = Null | IntToPtr | Function(f: Fun) | Alias(f: Fun) | TypeInfo | Other

  // The functions among some entries, in table order.
  function Functions(entries: seq<Entry>): seq<Fun> {
    if entries == [] then []
    else (if entries[0].Function? || entries[0].Alias? then [entries[0].f] else []) + Functions(entries[1..])
  }

  lemma {:induction false} FunctionsConcat(a: seq<Entry>, b: seq<Entry>)
    ensures Functions(a + b) == Functions(a) + Functions(b)
  {
    if a == [] {
      assert a + b == b;
    } else {
      FunctionsConcat(a[1..], b);
      var ab := a + b;
      assert ab[1..] == a[1..] + b && ab[0] == a[0];
      Reassociate(if a[0].Function? || a[0].Alias? then [a[0].f] else [], Functions(a[1..]), Functions(b));
    }
  }

  // The table cut at every IntToPtr entry, which belongs to neither side.
  function Segments(table: seq<Entry>): (r: seq<seq<Entry>>)
    ensures |r| > 0
  {
    if table == [] then [[]]
    else
      var rest := Segments(table[1..]);
      if table[0].IntToPtr? then [[]] + rest else [[table[0]] + rest[0]] + rest[1..]
  }

  // Putting the segments back together with an IntToPtr between them gives the table.
  function Join(segments: seq<seq<Entry>>): seq<Entry>
    requires |segments| > 0
  {
    if |segments| == 1 then segments[0] else segments[0] + [IntToPtr] + Join(segments[1..])
  }

  lemma {:induction false} SegmentsJoin(table: seq<Entry>)
    ensures Join(Segments(table)) == table
    ensures forall s | s in Segments(table) :: IntToPtr !in s
    ensures |Segments(table)| == 1 + |Cuts(table)|
  {
    if table != [] {
      SegmentsJoin(table[1..]);
      var rest := Segments(table[1..]);
      assert table == [table[0]] + table[1..];
      if table[0].IntToPtr? {
        JoinAfterCut(rest);
      } else {
        JoinExtended(table[0], rest);
      }
    }
  }

  lemma JoinAfterCut(rest: seq<seq<Entry>>)
    requires |rest| > 0
    ensures Join([[]] + rest) == [IntToPtr] + Join(rest)
  {
    assert ([[]] + rest)[1..] == rest;
  }

  lemma JoinExtended(entry: Entry, rest: seq<seq<Entry>>)
    requires |rest| > 0
    ensures Join([[entry] + rest[0]] + rest[1..]) == [entry] + Join(rest)
  {
    var all := [[entry] + rest[0]] + rest[1..];
    assert all[1..] == rest[1..];
    if |rest| > 1 {
      var tail := Join(rest[1..]);
      Reassociate([entry], rest[0], [IntToPtr]);
      Reassociate([entry], rest[0] + [IntToPtr], tail);
    }
  }

  function Cuts(table: seq<Entry>): seq<Entry> {
    if table == [] then [] else (if table[0].IntToPtr? then [table[0]] else []) + Cuts(table[1..])
  }

  // The length of the null run that starts at i.
  function NullRun(entries: seq<Entry>, i: nat): (n: nat)
    requires i <= |entries|
    ensures i + n <= |entries| && (forall k | i <= k < i + n :: entries[k].Null?)
    ensures i + n < |entries| ==> !entries[i + n].Null?
    decreases |entries| - i
  {
    if i < |entries| && entries[i].Null? then 1 + NullRun(entries, i + 1) else 0
  }

  // A null run starts at i directly after a type-info entry.
  predicate StartsRun(entries: seq<Entry>, i: nat) {
    0 < i < |entries| && entries[i].Null? && entries[i - 1].TypeInfo?
  }

  // The copies to put in front: the length of the last null run directly after a type-info
  // entry before position n, 0 if there is none.
  function Padding(segment: seq<Entry>, n: nat): nat
    requires n <= |segment|
  {
    if n == 0 then 0
    else if StartsRun(segment, n - 1) then NullRun(segment, n - 1)
    else Padding(segment, n - 1)
  }

  // What a segment becomes: its functions, the first one repeated in front.
  function VectorOf(segment: seq<Entry>): seq<Fun> {
    var funs := Functions(segment);
    if funs == [] then [] else seq(Padding(segment, |segment|), _ => funs[0]) + funs
  }

  // The emitted vectors: those of the segments that have functions.
  function VectorsOf(segments: seq<seq<Entry>>): seq<seq<Fun>> {
    if segments == [] then []
    else (if Functions(segments[0]) == [] then [] else [VectorOf(segments[0])]) + VectorsOf(segments[1..])
  }

  ghost predicate NoRunAfter(segment: seq<Entry>, i: int, n: nat) {
    forall j {:trigger StartsRun(segment, j)} | i < j < n && 0 <= j :: !StartsRun(segment, j)
  }

  // The padding is the length of the last null run directly after a type-info entry; i is
  // where that run starts, -1 if there is none.
  lemma {:induction false} PaddingIsLastRun(segment: seq<Entry>, n: nat) returns (i: int)
    requires n <= |segment|
    ensures -1 <= i < n && NoRunAfter(segment, i, n)
    ensures if i == -1 then Padding(segment, n) == 0
            else StartsRun(segment, i) && Padding(segment, n) == NullRun(segment, i)
  {
    if n == 0 {
      i := -1;
    } else if StartsRun(segment, n - 1) {
      i := n - 1;
    } else {
      i := PaddingIsLastRun(segment, n - 1);
    }
  }

  // A vector is k copies of the segment's first function and then the segment's functions.
  lemma VectorShape(segment: seq<Entry>)
    requires Functions(segment) != []
    ensures var v, k, funs := VectorOf(segment), Padding(segment, |segment|), Functions(segment);
            |v| == k + |funs| && v[k..] == funs && forall j | 0 <= j < k :: v[j] == funs[0]
  {
  }

  // The vectors without their padding, one after the other.
  function Unpadded(segments: seq<seq<Entry>>): seq<Fun> {
    if segments == [] then []
    else (if Functions(segments[0]) == [] then [] else VectorOf(segments[0])[Padding(segments[0], |segments[0]|)..])
         + Unpadded(segments[1..])
  }

  // Without the padding the vectors hold the table's functions, unchanged.
  lemma {:induction false} ContentIsKept(table: seq<Entry>)
    ensures Unpadded(Segments(table)) == Functions(table)
  {
    UnpaddedIsFunctions(Segments(table));
    SegmentsJoin(table);
    JoinKeepsFunctions(Segments(table));
  }

  lemma {:induction false} UnpaddedIsFunctions(segments: seq<seq<Entry>>)
    ensures Unpadded(segments) == Concat(seq(|segments|, i requires 0 <= i < |segments| => Functions(segments[i])))
  {
    if segments != [] {
      UnpaddedIsFunctions(segments[1..]);
      var blocks := seq(|segments|, i requires 0 <= i < |segments| => Functions(segments[i]));
      assert blocks[1..] == seq(|segments[1..]|, i requires 0 <= i < |segments[1..]| => Functions(segments[1..][i]));
      if blocks[0] != [] { VectorShape(segments[0]); }
    }
  }

  lemma {:induction false} JoinKeepsFunctions(segments: seq<seq<Entry>>)
    requires |segments| > 0
    ensures Functions(Join(segments)) ==
            Concat(seq(|segments|, i requires 0 <= i < |segments| => Functions(segments[i])))
  {
    var blocks := seq(|segments|, i requires 0 <= i < |segments| => Functions(segments[i]));
    if |segments| == 1 {
      assert blocks == [Functions(segments[0])] && Concat(blocks[1..]) == [];
    } else {
      var rest := segments[1..];
      JoinKeepsFunctions(rest);
      FunctionsConcat(segments[0] + [IntToPtr], Join(rest));
      FunctionsConcat(segments[0], [IntToPtr]);
      assert Functions([IntToPtr]) == [];
      assert blocks[1..] == seq(|rest|, i requires 0 <= i < |rest| => Functions(rest[i]));
    }
  }

  // ----- the splitting loop -----

  lemma {:induction false} FirstSegment(entries: seq<Entry>, n: nat)
    requires n <= |entries| && IntToPtr !in entries[..n] && (n < |entries| ==> entries[n].IntToPtr?)
    ensures Segments(entries) == [entries[..n]] + if n < |entries| then Segments(entries[n + 1..]) else []
  {
    if n > 0 {
      assert forall e | e in entries[1..][..n - 1] :: e in entries[..n];
      FirstSegment(entries[1..], n - 1);
      assert entries[0] in entries[..n];
      assert entries[..n] == [entries[0]] + entries[1..][..n - 1];
      if n < |entries| { assert entries[1..][n..] == entries[n + 1..]; }
    }
  }

  // The same as Padding, for the part of the table from start to n.
  function PaddingAt(table: seq<Entry>, start: nat, n: nat): nat
    requires start <= n <= |table|
    decreases n - start
  {
    if n == start then 0
    else if start < n - 1 && StartsRun(table, n - 1) then NullRun(table, n - 1)
    else PaddingAt(table, start, n - 1)
  }

  lemma {:induction false} RunInSegment(table: seq<Entry>, start: nat, stop: nat, i: nat)
    requires start <= i <= stop <= |table| && (stop < |table| ==> !table[stop].Null?)
    ensures NullRun(table[start..stop], i - start) == NullRun(table, i)
    decreases stop - i
  {
    if i < stop { RunInSegment(table, start, stop, i + 1); }
  }

  lemma {:induction false} PaddingInSegment(table: seq<Entry>, start: nat, stop: nat, n: nat)
    requires start <= n <= stop <= |table| && (stop < |table| ==> !table[stop].Null?)
    ensures Padding(table[start..stop], n - start) == PaddingAt(table, start, n)
    decreases n
  {
    if start < n {
      RunInSegment(table, start, stop, n - 1);
      PaddingInSegment(table, start, stop, n - 1);
      var segment := table[start..stop];
      assert segment[n - 1 - start] == table[n - 1];
      if start < n - 1 { assert segment[n - 2 - start] == table[n - 2]; }
    }
  }

  method CountNulls(table: seq<Entry>, i: nat) returns (n: nat)
    requires i < |table| && table[i].Null?
    ensures n == NullRun(table, i)
  {
    n := 1;
    while i + n < |table| && table[i + n].Null?
      invariant 1 <= n && i + n <= |table|
      invariant NullRun(table, i) == n + NullRun(table, i + n)
    {
      n := n + 1;
    }
  }

  lemma FunctionsNext(table: seq<Entry>, start: nat, stop: nat)
    requires start <= stop < |table|
    ensures table[start..stop + 1] == table[start..stop] + [table[stop]]
    ensures Functions(table[start..stop + 1]) ==
            Functions(table[start..stop]) +
            if table[stop].Function? || table[stop].Alias? then [table[stop].f] else []
  {
    var entry := table[stop];
    FunctionsConcat(table[start..stop], [entry]);
    assert table[start..stop + 1] == table[start..stop] + [entry];
    assert Functions([entry]) == (if entry.Function? || entry.Alias? then [entry.f] else []) + Functions([]);
  }

  // Scans one segment; stop is its end.
  method ScanSegment(table: seq<Entry>, start: nat) returns (funs: seq<Fun>, nulls: nat, stop: nat)
    requires start < |table| && (start > 0 ==> table[start - 1].IntToPtr?)
    ensures start <= stop <= |table| && IntToPtr !in table[start..stop] && (stop < |table| ==> table[stop].IntToPtr?)
    ensures funs == Functions(table[start..stop]) && nulls == Padding(table[start..stop], stop - start)
  {
    funs, nulls, stop := [], 0, start;
    while stop < |table| && !table[stop].IntToPtr?
      invariant start <= stop <= |table| && IntToPtr !in table[start..stop]
      invariant funs == Functions(table[start..stop]) && nulls == PaddingAt(table, start, stop)
    {
      var entry := table[stop];
      FunctionsNext(table, start, stop);
      if entry.Null? {
        if stop > 0 && table[stop - 1].TypeInfo? {
          nulls := CountNulls(table, stop);
        }
      } else if entry.Function? || entry.Alias? {
        funs := funs + [entry.f];
      }
      stop := stop + 1;
    }
    PaddingInSegment(table, start, stop, stop);
  }

  // The first function is put in front once for every null pointer.
  method Pad(funs: seq<Fun>, nulls: nat) returns (r: seq<Fun>)
    requires funs != []
    ensures r == seq(nulls, _ => funs[0]) + funs
  {
    r := funs;
    for i := 0 to nulls
      invariant r == seq(i, _ => funs[0]) + funs
    {
      r := [r[i]] + r;
    }
  }

  method SplitVTable(table: seq<Entry>) returns (vectors: seq<seq<Fun>>, multiInheritance: bool)
    ensures vectors == VectorsOf(Segments(table))
    ensures multiInheritance <==> IntToPtr in table
  {
    vectors, multiInheritance := [], false;
    var i := 0;
    assert table[0..] == table;
    while i < |table|
      invariant 0 <= i <= |table| && (0 < i < |table| ==> table[i - 1].IntToPtr?)
      invariant vectors + VectorsOf(Segments(table[i..])) == VectorsOf(Segments(table))
      invariant multiInheritance <==> IntToPtr in table[..i]
    {
      var more, next := SplitSegment(table, i);
      Reassociate(vectors, more, VectorsOf(Segments(table[next..])));
      vectors, i := vectors + more, next;
      multiInheritance := multiInheritance || table[i - 1].IntToPtr?;
    }
    assert table[..i] == table && VectorsOf(Segments(table[i..])) == [];
  }

  // The vector of the segment at start, if it has functions, and where the next one starts.
  method SplitSegment(table: seq<Entry>, start: nat) returns (more: seq<seq<Fun>>, next: nat)
    requires start < |table| && (start > 0 ==> table[start - 1].IntToPtr?)
    ensures start < next <= |table| && (next < |table| ==> table[next - 1].IntToPtr?)
    ensures VectorsOf(Segments(table[start..])) == more + VectorsOf(Segments(table[next..]))
    ensures IntToPtr in table[..next] <==> IntToPtr in table[..start] || table[next - 1].IntToPtr?
  {
    var funs, nulls, stop := ScanSegment(table, start);
    NextSegment(table, start, stop);
    more, next := [], if stop < |table| then stop + 1 else stop;
    if funs != [] {
      var vector := Pad(funs, nulls);
      more := [vector];
    }
    EndOfSegment(table, start, stop);
  }

  // The last entry looked at is a cut exactly if the segment ends before the table does.
  lemma EndOfSegment(table: seq<Entry>, start: nat, stop: nat)
    requires start <= stop <= |table| && start < |table| && IntToPtr !in table[start..stop]
    requires stop < |table| ==> table[stop].IntToPtr?
    ensures var next := if stop < |table| then stop + 1 else stop;
      start < next && (table[next - 1].IntToPtr? <==> stop < |table|)
  {
    assert stop == |table| ==> table[stop - 1] in table[start..stop];
  }

  lemma NextSegment(table: seq<Entry>, start: nat, stop: nat)
    requires start <= stop <= |table| && IntToPtr !in table[start..stop] && (stop < |table| ==> table[stop].IntToPtr?)
    ensures var next := if stop < |table| then stop + 1 else stop;
            && VectorsOf(Segments(table[start..])) ==
               (if Functions(table[start..stop]) == [] then [] else [VectorOf(table[start..stop])])
               + VectorsOf(Segments(table[next..]))
            && (IntToPtr in table[..next] <==> IntToPtr in table[..start] || stop < |table|)
  {
    var entries, n := table[start..], stop - start;
    assert entries[..n] == table[start..stop];
    FirstSegment(entries, n);
    CutsUpTo(table, start, stop);
    if stop < |table| {
      assert entries[n + 1..] == table[stop + 1..];
      assert ([entries[..n]] + Segments(entries[n + 1..]))[1..] == Segments(entries[n + 1..]);
    } else {
      assert table[stop..] == [] && VectorsOf(Segments([])) == VectorsOf([[]]) == [];
    }
  }

  lemma CutsUpTo(table: seq<Entry>, start: nat, stop: nat)
    requires start <= stop <= |table| && IntToPtr !in table[start..stop] && (stop < |table| ==> table[stop].IntToPtr?)
    ensures var next := if stop < |table| then stop + 1 else stop;
      IntToPtr in table[..next] <==> IntToPtr in table[..start] || stop < |table|
  {
    assert table[..stop] == table[..start] + table[start..stop];
    if stop < |table| { assert table[..stop + 1] == table[..stop] + [table[stop]]; }
  }

  // A table is of a purely abstract class when all its functions are the pure virtual one.
  method IsPureAbstract(table: seq<Entry>, pureVirtual: Fun) returns (pure_: bool)
    ensures pure_ <==> forall e | e in table :: !e.Alias? && (e.Function? ==> e.f == pureVirtual)
  {
    pure_ := true;
    for i := 0 to |table|
      invariant pure_ <==> forall e | e in table[..i] :: !e.Alias? && (e.Function? ==> e.f == pureVirtual)
    {
      assert table[..i + 1] == table[..i] + [table[i]];
      if table[i].Function? { pure_ := pure_ && table[i].f == pureVirtual; }
      if table[i].Alias? { pure_ := false; }
    }
    assert table[..|table|] == table;
  }
}
