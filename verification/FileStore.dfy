/** The file-backed page store (src/store.rs, FilePageStore): bulk requests are sorted and coalesced
    into runs of consecutive pages, each one file access. The file is an array of pages. */
module FileStore {
  import opened Common
  import opened PageStores

  /** Position of the first key greater than `x`; equal keys keep their order. */
  function InsertPosition(keys: seq<nat>, x: nat): (i: nat)
    ensures i <= |keys|
    ensures forall k :: 0 <= k < i ==> keys[k] <= x
    ensures i < |keys| ==> x < keys[i]
  {
    if keys == [] || x < keys[0] then 0 else 1 + InsertPosition(keys[1..], x)
  }

  function Insert(keys: seq<nat>, x: nat): seq<nat> {
    var i := InsertPosition(keys, x);
    keys[..i] + [x] + keys[i..]
  }

  /** The keys in ascending order. */
  function Sorted(keys: seq<nat>): seq<nat> {
    if keys == [] then [] else Insert(Sorted(keys[..|keys| - 1]), keys[|keys| - 1])
  }

  ghost predicate Ascending(keys: seq<nat>) {
    forall i, j :: 0 <= i < j < |keys| ==> keys[i] <= keys[j]
  }

  ghost predicate StrictlyAscending(keys: seq<nat>) {
    forall i, j :: 0 <= i < j < |keys| ==> keys[i] < keys[j]
  }

  lemma InsertKeeps(keys: seq<nat>, x: nat)
    requires Ascending(keys)
    ensures Ascending(Insert(keys, x)) && multiset(Insert(keys, x)) == multiset(keys) + multiset{x}
    ensures |Insert(keys, x)| == |keys| + 1
  {
    hide InsertPosition;
    var i := InsertPosition(keys, x);
    InsertBag(keys, x, i);
    InsertOrder(keys, x, i);
  }

  lemma InsertBag(keys: seq<nat>, x: nat, i: nat)
    requires i <= |keys|
    ensures multiset(keys[..i] + [x] + keys[i..]) == multiset(keys) + multiset{x}
  {
    assert keys == keys[..i] + keys[i..];
  }

  lemma InsertOrder(keys: seq<nat>, x: nat, i: nat)
    requires Ascending(keys) && i <= |keys|
    requires (forall k :: 0 <= k < i ==> keys[k] <= x) && (i < |keys| ==> x < keys[i])
    ensures Ascending(keys[..i] + [x] + keys[i..])
  {
  }

  lemma {:induction false} SortedMeaning(keys: seq<nat>)
    ensures Ascending(Sorted(keys)) && multiset(Sorted(keys)) == multiset(keys)
    ensures |Sorted(keys)| == |keys|
  {
    if keys != [] {
      var n := |keys| - 1;
      SortedMeaning(keys[..n]);
      InsertKeeps(Sorted(keys[..n]), keys[n]);
      hide Insert, Ascending;
      assert keys == keys[..n] + [keys[n]];
    }
  }

  /** Number of maximal stretches of consecutive pages in an ascending list. */
  function Runs(keys: seq<nat>): nat {
    if keys == [] then 0
    else
      var n := |keys| - 1;
      Runs(keys[..n]) + (if n > 0 && keys[n] == keys[n - 1] + 1 then 0 else 1)
  }

  /** Counts the runs of a set of pages in ascending order (src/bin/oramctl.rs, contiguous_runs). */
  method ContiguousRuns(pages: seq<nat>) returns (runs: nat)
    requires StrictlyAscending(pages)
    ensures runs == Runs(pages)
  {
    runs := 0;
    var previous: Option<nat> := None;
    for i := 0 to |pages|
      invariant runs == Runs(pages[..i])
      invariant previous == if i == 0 then None else Some(pages[i - 1])
    {
      assert pages[..i + 1][..i] == pages[..i];
      if previous.None? || pages[i] != previous.value + 1 {
        runs := runs + 1;
      }
      previous := Some(pages[i]);
    }
    assert pages[..|pages|] == pages;
  }

  /** Two strictly ascending lists of the same pages are the same list. */
  lemma {:induction false} AscendingUnique(a: seq<nat>, b: seq<nat>)
    requires StrictlyAscending(a) && StrictlyAscending(b)
    requires forall x :: x in a <==> x in b
    ensures a == b
  {
    assert a != [] ==> a[0] in a;
    assert b != [] ==> b[0] in b;
    if a != [] && b != [] {
      assert a[0] in b && b[0] in a;
      assert a[0] == b[0];
      forall x
        ensures x in a[1..] <==> x in b[1..]
      {
        assert x in a <==> x == a[0] || x in a[1..];
        assert x in b <==> x == b[0] || x in b[1..];
      }
      AscendingUnique(a[1..], b[1..]);
    }
  }

  ghost predicate NoDuplicates(keys: seq<nat>) {
    forall i, j :: 0 <= i < j < |keys| ==> keys[i] != keys[j]
  }

  lemma {:induction false} InsertStrict(keys: seq<nat>, x: nat)
    requires StrictlyAscending(keys) && x !in keys
    ensures StrictlyAscending(Insert(keys, x))
  {
  }

  lemma {:induction false} SortedStrict(keys: seq<nat>)
    requires NoDuplicates(keys)
    ensures StrictlyAscending(Sorted(keys))
  {
    if keys != [] {
      var n := |keys| - 1;
      SortedStrict(keys[..n]);
      SortedMeaning(keys[..n]);
      assert keys[n] !in multiset(keys[..n]);
      assert keys[n] !in Sorted(keys[..n]);
      InsertStrict(Sorted(keys[..n]), keys[n]);
    }
  }

  /** For a duplicate-free request the number of runs is that of its set of pages. */
  lemma RunsOfSet(indices: seq<nat>, pages: seq<nat>)
    requires NoDuplicates(indices) && StrictlyAscending(pages)
    requires forall x :: x in indices <==> x in pages
    ensures Runs(Sorted(indices)) == Runs(pages)
  {
    SortedStrict(indices);
    SortedMeaning(indices);
    forall x
      ensures x in Sorted(indices) <==> x in pages
    {
      assert x in Sorted(indices) <==> x in multiset(Sorted(indices));
      assert x in indices <==> x in multiset(indices);
    }
    AscendingUnique(Sorted(indices), pages);
  }

  function KeysOf(order: seq<nat>, indices: seq<nat>): (r: seq<nat>)
    requires AllInRange(order, |indices|)
    ensures |r| == |order| && forall i :: 0 <= i < |r| ==> r[i] == indices[order[i]]
  {
    seq<nat>(|order|, (i: int) requires 0 <= i < |order| => indices[order[i]])
  }

  /** The first `n` request positions, each once. */
  ghost predicate Positions(order: seq<nat>, n: nat) {
    && |order| == n
    && AllInRange(order, n)
    && NoDuplicates(order)
    && (forall pos: nat :: pos < n ==> pos in order)
  }

  /** Request positions sorted by page, equal pages in request order. */
  method SortedOrder(indices: seq<nat>) returns (order: seq<nat>)
    ensures Positions(order, |indices|) && |order| == |indices| && AllInRange(order, |indices|) && NoDuplicates(order)
    ensures KeysOf(order, indices) == Sorted(indices)
  {
    hide Sorted, InsertPosition, Positions, KeysOf;
    NothingOrdered(indices);
    order := [];
    for k := 0 to |indices|
      invariant Positions(order, k) && |order| == k && AllInRange(order, |indices|) && NoDuplicates(order)
      invariant KeysOf(order, indices) == Sorted(indices[..k])
    {
      var at := InsertPosition(KeysOf(order, indices), indices[k]);
      PositionsGrow(order, k, at);
      SortedGrows(order, indices, k, at);
      order := order[..at] + [k] + order[at..];
    }
    assert indices[..|indices|] == indices;
  }

  lemma NothingOrdered(indices: seq<nat>)
    ensures Positions([], 0) && KeysOf([], indices) == Sorted(indices[..0])
  {
  }

  lemma SortedGrows(order: seq<nat>, indices: seq<nat>, n: nat, at: nat)
    requires n < |indices| && Positions(order, n) && KeysOf(order, indices) == Sorted(indices[..n])
    requires at == InsertPosition(KeysOf(order, indices), indices[n])
    ensures var longer := order[..at] + [n] + order[at..];
            AllInRange(longer, |indices|) && KeysOf(longer, indices) == Sorted(indices[..n + 1])
  {
    hide InsertPosition;
    var longer := order[..at] + [n] + order[at..];
    var keys := KeysOf(order, indices);
    assert KeysOf(longer, indices) == keys[..at] + [indices[n]] + keys[at..];
    assert indices[..n + 1][..n] == indices[..n];
  }

  lemma PositionsGrow(order: seq<nat>, n: nat, at: nat)
    requires Positions(order, n) && at <= n
    ensures Positions(order[..at] + [n] + order[at..], n + 1) && NoDuplicates(order[..at] + [n] + order[at..])
  {
    var longer := order[..at] + [n] + order[at..];
    forall pos: nat | pos < n + 1
      ensures pos in longer
    {
      if pos < n {
        assert pos in order;
        var i :| 0 <= i < |order| && order[i] == pos;
        assert longer[if i < at then i else i + 1] == pos;
      } else {
        assert longer[at] == n;
      }
    }
  }

  /** End of the run of consecutive pages that starts at `start`. */
  method RunEnd(keys: seq<nat>, start: nat, pageCount: nat) returns (r: Result<nat>)
    requires start < |keys| && Ascending(keys)
    ensures r.Ok? ==>
              && start < r.value <= |keys|
              && (forall k :: start <= k < r.value ==> keys[k] == keys[start] + (k - start) && keys[k] < pageCount)
              && (r.value < |keys| ==> keys[r.value] != keys[r.value - 1] + 1)
    ensures r.Err? ==> exists k :: start <= k < |keys| && keys[k] >= pageCount
  {
    if keys[start] >= pageCount {
      return Err(InvalidInput);
    }
    var end := start + 1;
    while end < |keys| && keys[end] == keys[end - 1] + 1
      invariant start < end <= |keys|
      invariant forall k :: start <= k < end ==> keys[k] == keys[start] + (k - start) && keys[k] < pageCount
    {
      if keys[end] >= pageCount {
        return Err(InvalidInput);
      }
      end := end + 1;
    }
    return Ok(end);
  }

  /** A run extends the count by one. */
  lemma {:induction false} RunCounted(keys: seq<nat>, start: nat, end: nat)
    requires start < end <= |keys|
    requires forall k :: start <= k < end ==> keys[k] == keys[start] + (k - start)
    requires start > 0 ==> keys[start] != keys[start - 1] + 1
    ensures Runs(keys[..end]) == Runs(keys[..start]) + 1
    decreases end
  {
    assert keys[..end][..end - 1] == keys[..end - 1];
    if end - 1 > start {
      RunCounted(keys, start, end - 1);
    }
  }

  lemma KeyListed(order: seq<nat>, indices: seq<nat>, k: nat)
    requires Positions(order, |indices|) && k < |order|
    ensures KeysOf(order, indices)[k] in indices
  {
  }

  lemma AllKeysInRange(order: seq<nat>, indices: seq<nat>, bound: nat)
    requires Positions(order, |indices|)
    requires forall k :: 0 <= k < |order| ==> KeysOf(order, indices)[k] < bound
    ensures AllInRange(indices, bound)
  {
    forall pos | 0 <= pos < |indices|
      ensures indices[pos] < bound
    {
      assert pos in order;
      var i :| 0 <= i < |order| && order[i] == pos;
      assert KeysOf(order, indices)[i] == indices[pos];
    }
  }

  class FilePageStore<P> {
    const file: array<P>
    const blank: P
    /** File accesses so far. */
    ghost var accesses: nat

    constructor (pageCount: nat, blank: P)
      requires pageCount > 0
      ensures fresh(file) && file.Length == pageCount && this.blank == blank
    {
      this.file := new P[pageCount](_ => blank);
      this.blank := blank;
    }

    method ReadPage(pageIdx: nat) returns (r: Result<P>)
      modifies this`accesses
      ensures r.Ok? <==> pageIdx < file.Length
      ensures r.Ok? ==> r.value == file[pageIdx]
    {
      if pageIdx >= file.Length {
        return Err(InvalidInput);
      }
      accesses := accesses + 1;
      return Ok(file[pageIdx]);
    }

    method WritePage(pageIdx: nat, content: P) returns (r: Result<()>)
      modifies this`accesses, file
      ensures r.Ok? <==> pageIdx < file.Length
      ensures file[..] == if r.Ok? then old(file[..])[pageIdx := content] else old(file[..])
    {
      if pageIdx >= file.Length {
        return Err(InvalidInput);
      }
      accesses := accesses + 1;
      file[pageIdx] := content;
      return Ok(());
    }

    /** One file read of a run of pages. */
    method ReadRun(first: nat, count: nat) returns (run: seq<P>)
      requires first + count <= file.Length
      modifies this`accesses
      ensures run == file[first..first + count] && accesses == old(accesses) + 1
    {
      accesses := accesses + 1;
      run := file[first..first + count];
    }

    /** One file write of a run of pages. */
    method WriteRun(first: nat, run: seq<P>)
      requires first + |run| <= file.Length
      modifies this`accesses, file
      ensures accesses == old(accesses) + 1
      ensures forall n :: 0 <= n < file.Length ==>
                file[n] == if first <= n < first + |run| then run[n - first] else old(file[n])
    {
      accesses := accesses + 1;
      forall k | 0 <= k < |run| {
        file[first + k] := run[k];
      }
    }

    /** Reads sorted runs and hands the pages back in the caller's order: the same pages as one read
        per index, with one file access per run. */
    method ReadPages(indices: seq<nat>) returns (r: Result<seq<P>>)
      modifies this`accesses
      ensures r.Ok? <==> AllInRange(indices, file.Length)
      ensures r.Ok? ==> r.value == ReadAll(file[..], indices)
      ensures r.Ok? ==> accesses == old(accesses) + Runs(Sorted(indices))
    {
      hide Runs, Sorted, ReadUpTo, Positions, ReadAll;
      var order := SortedOrder(indices);
      SortedMeaning(indices);
      var pages := new P[|indices|](_ => blank);
      r := Err(InvalidInput);
      var all := ReadRuns(KeysOf(order, indices), order, pages);
      if all {
        AllRead(file[..], indices, order, pages[..]);
        r := Ok(pages[..]);
      } else {
        ghost var k :| 0 <= k < |order| && KeysOf(order, indices)[k] >= file.Length;
        KeyListed(order, indices, k);
      }
    }

    /** Reads the sorted pages run by run into the positions that asked for them. */
    method ReadRuns(keys: seq<nat>, order: seq<nat>, pages: array<P>) returns (all: bool)
      requires |keys| == |order| == pages.Length && AllInRange(order, pages.Length) && NoDuplicates(order) &&
               Ascending(keys)
      requires pages != file
      modifies this`accesses, pages
      ensures all ==> ReadUpTo(file[..], keys, order, pages[..], |order|)
      ensures all ==> accesses == old(accesses) + Runs(keys)
      ensures !all ==> exists k :: 0 <= k < |keys| && keys[k] >= file.Length
    {
      hide Runs, ReadUpTo;
      var runStart := 0;
      NoRuns(keys);
      NothingRead(file[..], keys, order, pages[..]);
      while runStart < |order|
        invariant runStart <= |order|
        invariant ReadUpTo(file[..], keys, order, pages[..], runStart)
        invariant 0 < runStart < |order| ==> keys[runStart] != keys[runStart - 1] + 1
        invariant accesses == old(accesses) + Runs(keys[..runStart])
      {
        var end := RunEnd(keys, runStart, file.Length);
        if end.Err? {
          return false;
        }
        assert keys[end.value - 1] < file.Length;
        var run := ReadRun(keys[runStart], end.value - runStart);
        CopyRun(run, keys, order, pages, runStart, end.value, file[..]);
        RunCounted(keys, runStart, end.value);
        runStart := end.value;
      }
      assert keys[..|order|] == keys;
      return true;
    }

    /** Hands the pages of a run back to the positions that asked for them. */
    method CopyRun(run: seq<P>, keys: seq<nat>, order: seq<nat>, pages: array<P>, start: nat, end: nat,
                   ghost stored: seq<P>)
      requires start < end <= |order| == |keys| == pages.Length && |run| == end - start
      requires NoDuplicates(order) && AllInRange(order, pages.Length)
      requires keys[start] + (end - start) <= |stored| && run == stored[keys[start]..keys[start] + (end - start)]
      requires forall k :: start <= k < end ==> keys[k] == keys[start] + (k - start)
      requires ReadUpTo(stored, keys, order, pages[..], start)
      modifies pages
      ensures ReadUpTo(stored, keys, order, pages[..], end)
    {
      for k := start to end
        invariant ReadUpTo(stored, keys, order, pages[..], k)
      {
        pages[order[k]] := run[k - start];
      }
    }

    method HasDuplicatePages(indices: seq<nat>, order: seq<nat>) returns (dup: bool)
      requires Positions(order, |indices|) && Ascending(KeysOf(order, indices))
      ensures dup <==> !NoDuplicates(indices)
    {
      var keys := KeysOf(order, indices);
      var k := 1;
      while k < |order|
        invariant 1 <= k && forall j :: 0 < j < k && j < |keys| ==> keys[j - 1] != keys[j]
      {
        if indices[order[k - 1]] == indices[order[k]] {
          DuplicateFound(order, indices, k);
          return true;
        }
        k := k + 1;
      }
      NoneFound(order, indices);
      return false;
    }

    /** Distinct pages are written in sorted runs; a list with repeats one by one. Either way the file
        ends as after one write per index in the caller's order. */
    method WritePages(indices: seq<nat>, contents: seq<P>) returns (r: Result<()>)
      modifies this`accesses, file
      ensures r.Ok? <==> |contents| == |indices| && AllInRange(indices, file.Length)
      ensures r.Ok? ==> file[..] == WriteAll(old(file[..]), indices, contents, |indices|)
      ensures r.Ok? && NoDuplicates(indices) ==> accesses == old(accesses) + Runs(Sorted(indices))
      ensures |contents| != |indices| ==> file[..] == old(file[..])
    {
      hide Runs, Sorted, WrittenUpTo, Positions, WriteAll;
      if |indices| != |contents| {
        return Err(InvalidInput);
      }
      var order := SortedOrder(indices);
      SortedMeaning(indices);
      var dup := HasDuplicatePages(indices, order);
      if dup {
        r := WriteOneByOne(indices, contents);
        return;
      }
      ghost var before := file[..];
      r := WriteRuns(KeysOf(order, indices), order, contents);
      if r.Ok? {
        AllWritten(before, indices, order, contents, file[..]);
      } else {
        ghost var k :| 0 <= k < |order| && KeysOf(order, indices)[k] >= file.Length;
        KeyListed(order, indices, k);
      }
    }

    /** Writes the sorted pages run by run. */
    method WriteRuns(keys: seq<nat>, order: seq<nat>, contents: seq<P>) returns (r: Result<()>)
      requires |keys| == |order| && AllInRange(order, |contents|) && StrictlyAscending(keys)
      modifies this`accesses, file
      ensures r.Ok? ==> WrittenUpTo(old(file[..]), keys, order, contents, file[..], |order|)
      ensures r.Ok? ==> accesses == old(accesses) + Runs(keys)
      ensures r.Err? ==> exists k :: 0 <= k < |keys| && keys[k] >= file.Length
    {
      hide Runs, WrittenUpTo;
      var runStart := 0;
      NoRuns(keys);
      NothingWritten(file[..], keys, order, contents);
      while runStart < |order|
        invariant runStart <= |order|
        invariant WrittenUpTo(old(file[..]), keys, order, contents, file[..], runStart)
        invariant 0 < runStart < |order| ==> keys[runStart] != keys[runStart - 1] + 1
        invariant accesses == old(accesses) + Runs(keys[..runStart])
      {
        var end := RunEnd(keys, runStart, file.Length);
        if end.Err? {
          return Err(end.error);
        }
        var run := GatherRun(contents, order, runStart, end.value);
        ghost var before := file[..];
        assert keys[end.value - 1] < file.Length;
        WriteRun(keys[runStart], run);
        RunWritten(old(file[..]), keys, order, contents, before, file[..], runStart, end.value, run);
        RunCounted(keys, runStart, end.value);
        runStart := end.value;
      }
      assert keys[..|order|] == keys;
      return Ok(());
    }

    method WriteOneByOne(indices: seq<nat>, contents: seq<P>) returns (r: Result<()>)
      requires |contents| == |indices|
      modifies this`accesses, file
      ensures r.Ok? <==> AllInRange(indices, file.Length)
      ensures r.Ok? ==> file[..] == WriteAll(old(file[..]), indices, contents, |indices|)
    {
      for k := 0 to |indices|
        invariant AllInRange(indices[..k], file.Length)
        invariant AllInRange(indices, file.Length) ==> file[..] == WriteAll(old(file[..]), indices, contents, k)
      {
        var w := WritePage(indices[k], contents[k]);
        if w.Err? {
          return Err(w.error);
        }
        assert AllInRange(indices[..k + 1], file.Length);
      }
      assert indices[..|indices|] == indices;
      return Ok(());
    }

    method GatherRun(contents: seq<P>, order: seq<nat>, start: nat, end: nat) returns (run: seq<P>)
      requires start < end <= |order| && AllInRange(order, |contents|)
      ensures |run| == end - start && forall k :: start <= k < end ==> run[k - start] == contents[order[k]]
    {
      run := [];
      for k := start to end
        invariant |run| == k - start && forall j :: start <= j < k ==> run[j - start] == contents[order[j]]
      {
        run := run + [contents[order[k]]];
      }
    }
  }

  lemma DuplicateFound(order: seq<nat>, indices: seq<nat>, k: nat)
    requires Positions(order, |indices|) && 0 < k < |order| && indices[order[k - 1]] == indices[order[k]]
    ensures !NoDuplicates(indices)
  {
    var a, b := order[k - 1], order[k];
    assert a != b;
    if a < b {
      assert indices[a] == indices[b];
    } else {
      assert indices[b] == indices[a];
    }
  }

  lemma NoneFound(order: seq<nat>, indices: seq<nat>)
    requires Positions(order, |indices|) && Ascending(KeysOf(order, indices))
    requires forall j :: 0 < j < |order| ==> KeysOf(order, indices)[j - 1] != KeysOf(order, indices)[j]
    ensures NoDuplicates(indices) && StrictlyAscending(KeysOf(order, indices))
  {
    var keys := KeysOf(order, indices);
    forall i, j | 0 <= i < j < |keys|
      ensures keys[i] < keys[j]
    {
      assert keys[i] <= keys[j - 1] <= keys[j] && keys[j - 1] != keys[j];
    }
    forall a, b | 0 <= a < b < |indices|
      ensures indices[a] != indices[b]
    {
      assert a in order && b in order;
      var i :| 0 <= i < |order| && order[i] == a;
      var j :| 0 <= j < |order| && order[j] == b;
      assert keys[i] == indices[a] && keys[j] == indices[b] && i != j;
    }
  }

  /** The pages of the first `upTo` sorted keys were handed to their positions. */
  ghost predicate ReadUpTo<P>(file: seq<P>, keys: seq<nat>, order: seq<nat>, pages: seq<P>, upTo: nat) {
    && upTo <= |keys| == |order|
    && AllInRange(order, |pages|)
    && forall k :: 0 <= k < upTo ==> keys[k] < |file| && pages[order[k]] == file[keys[k]]
  }

  lemma NothingRead<P>(file: seq<P>, keys: seq<nat>, order: seq<nat>, pages: seq<P>)
    requires AllInRange(order, |pages|) && |keys| == |order|
    ensures ReadUpTo(file, keys, order, pages, 0)
  {
  }

  /** The contents of the first `upTo` sorted keys were written, and nothing else. */
  ghost predicate WrittenUpTo<P>(before: seq<P>, keys: seq<nat>, order: seq<nat>, contents: seq<P>, after: seq<P>,
                                 upTo: nat) {
    && |after| == |before| && upTo <= |keys| == |order|
    && AllInRange(order, |contents|)
    && (forall k :: 0 <= k < upTo ==> keys[k] < |after| && after[keys[k]] == contents[order[k]])
    && (forall n :: 0 <= n < |after| && n !in keys[..upTo] ==> after[n] == before[n])
  }

  lemma NothingWritten<P>(before: seq<P>, keys: seq<nat>, order: seq<nat>, contents: seq<P>)
    requires AllInRange(order, |contents|) && |keys| == |order|
    ensures WrittenUpTo(before, keys, order, contents, before, 0)
  {
  }

  lemma RunWritten<P>(first: seq<P>, keys: seq<nat>, order: seq<nat>, contents: seq<P>, before: seq<P>, after: seq<P>,
                      start: nat, end: nat, run: seq<P>)
    requires WrittenUpTo(first, keys, order, contents, before, start) && StrictlyAscending(keys)
    requires start < end <= |keys| && |run| == end - start && |after| == |before|
    requires forall k :: start <= k < end ==> keys[k] == keys[start] + (k - start) && keys[k] < |before|
    requires forall k :: start <= k < end ==> run[k - start] == contents[order[k]]
    requires forall n :: 0 <= n < |after| ==>
               after[n] == if keys[start] <= n < keys[start] + |run| then run[n - keys[start]] else before[n]
    ensures WrittenUpTo(first, keys, order, contents, after, end)
  {
    forall k | 0 <= k < end
      ensures keys[k] < |after| && after[keys[k]] == contents[order[k]]
    {
      if k >= start {
        assert run[k - start] == contents[order[k]];
      } else {
        assert keys[k] < keys[start];
      }
    }
    forall n | keys[start] <= n < keys[start] + |run|
      ensures n in keys[..end]
    {
      assert keys[..end][start + (n - keys[start])] == n;
    }
    assert forall k :: 0 <= k < start ==> keys[..start][k] == keys[..end][k];
  }

  lemma AllWritten<P>(before: seq<P>, indices: seq<nat>, order: seq<nat>, contents: seq<P>, after: seq<P>)
    requires Positions(order, |indices|) && |contents| == |indices| && NoDuplicates(indices)
    requires WrittenUpTo(before, KeysOf(order, indices), order, contents, after, |order|)
    ensures AllInRange(indices, |before|)
    ensures after == WriteAll(before, indices, contents, |indices|)
  {
    hide WriteAll;
    var keys := KeysOf(order, indices);
    AllKeysInRange(order, indices, |before|);
    WritePathFrame(before, indices, contents, |indices|);
    assert indices[..|indices|] == indices && keys[..|order|] == keys;
    forall n | 0 <= n < |after|
      ensures after[n] == WriteAll(before, indices, contents, |indices|)[n]
    {
      if n in indices {
        var pos :| 0 <= pos < |indices| && indices[pos] == n;
        assert pos in order;
        var k :| 0 <= k < |order| && order[k] == pos;
        assert keys[k] == n;
      } else {
        forall k | 0 <= k < |keys|
          ensures keys[k] != n
        {
          KeyListed(order, indices, k);
        }
      }
    }
  }

  lemma NoRuns(keys: seq<nat>)
    ensures Runs(keys[..0]) == 0
  {
  }

  lemma AllRead<P>(file: seq<P>, indices: seq<nat>, order: seq<nat>, pages: seq<P>)
    requires Positions(order, |indices|) && |pages| == |indices|
    requires ReadUpTo(file, KeysOf(order, indices), order, pages, |order|)
    ensures AllInRange(indices, |file|) && pages == ReadAll(file, indices)
  {
    AllKeysInRange(order, indices, |file|);
    forall pos | 0 <= pos < |indices|
      ensures pages[pos] == file[indices[pos]]
    {
      assert pos in order;
    }
  }
}
