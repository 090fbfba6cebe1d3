/** The arithmetic of multipart uploads: how a file is cut, and what an assembled selection can be. */
module UploadParts {
  import opened Base
  import opened FileRows
  import opened Stores

  // ---- cutting ----

  function NumParts(size: nat, partSize: nat): nat
    requires partSize > 0
  {
    Max(1, CeilDiv(size, partSize))
  }

  function PartNumbers(n: nat): seq<nat> {
    seq(n, i => i + 1)
  }

  /** `Blob.slice`, which clamps both ends to the size. */
  function BlobSlice(file: Bytes, start: nat, end: nat): Bytes
    requires start <= end
  {
    file[Min(start, |file|)..Min(end, |file|)]
  }

  function PartStart(partSize: nat, number: nat): nat
    requires number >= 1
  {
    (number - 1) * partSize
  }

  function Slice(file: Bytes, partSize: nat, number: nat): Bytes
    requires number >= 1
  {
    var start := PartStart(partSize, number);
    BlobSlice(file, start, start + partSize)
  }

  /** `n` parts of this size cover the file, and the last of them is not empty. */
  predicate Cuts(n: nat, size: nat, partSize: nat) {
    n >= 1 && (n - 1) * partSize < size <= (n - 1) * partSize + partSize
  }

  lemma NumPartsCuts(size: nat, partSize: nat)
    requires size > 0 && partSize > 0
    ensures Cuts(NumParts(size, partSize), size, partSize)
  {
    var q := (size + partSize - 1) / partSize;
    assert size + partSize - 1 == q * partSize + (size + partSize - 1) % partSize;
    assert q * partSize == (q - 1) * partSize + partSize;
    if q <= 0 {
      assert false;
    }
  }

  lemma OffsetsGrow(a: nat, b: nat, partSize: nat)
    requires a < b
    ensures a * partSize + partSize <= b * partSize
  {
    assert (a + 1) * partSize <= b * partSize;
  }

  /** Every part but the last is full, and the last is not empty and ends the file. */
  lemma PartShape(file: Bytes, partSize: nat, number: nat)
    requires partSize > 0 && |file| > 0 && 1 <= number <= NumParts(|file|, partSize)
    ensures number < NumParts(|file|, partSize) ==> |Slice(file, partSize, number)| == partSize
    ensures 1 <= |Slice(file, partSize, number)| <= partSize
    ensures number == NumParts(|file|, partSize) ==> (number - 1) * partSize + |Slice(file, partSize, number)| == |file|
  {
    NumPartsCuts(|file|, partSize);
    SliceLength(file, partSize, NumParts(|file|, partSize), number);
  }

  lemma SliceLength(file: Bytes, partSize: nat, n: nat, number: nat)
    requires partSize > 0 && Cuts(n, |file|, partSize) && 1 <= number <= n
    ensures number < n ==> |Slice(file, partSize, number)| == partSize
    ensures number == n ==> |Slice(file, partSize, number)| == |file| - (n - 1) * partSize
    ensures |Slice(file, partSize, number)| > 0
  {
    if number < n {
      OffsetsGrow(number - 1, n - 1, partSize);
    }
  }

  /** Any admitted size is cut in 1 to 128 parts. */
  lemma PartCountBounds(size: nat)
    requires 1 <= size <= MAX_FILE_SIZE_BYTES
    ensures 1 <= NumParts(size, PART_SIZE_BYTES) <= 128
  {}

  // ---- assembling ----

  /** Each stored part is the file's own slice of that number. */
  ghost predicate OwnSlices(parts: map<nat, Bytes>, file: Bytes, partSize: nat, n: nat) {
    forall k :: k in parts ==> 1 <= k <= n && parts[k] == Slice(file, partSize, k)
  }

  /** The part numbers after `done`. */
  function From(done: nat, n: nat): (numbers: seq<nat>)
    requires done <= n
    ensures forall p :: p in numbers ==> done < p <= n
  {
    seq(n - done, i requires 0 <= i => done + i + 1)
  }

  /** Where part `done + 1` starts, the end of the file once all are done. */
  function Offset(file: Bytes, partSize: nat, n: nat, done: nat): nat {
    if done < n then done * partSize else |file|
  }

  lemma OffsetsAreInFile(file: Bytes, partSize: nat, n: nat, done: nat)
    requires partSize > 0 && Cuts(n, |file|, partSize) && done < n
    ensures Offset(file, partSize, n, done) < Offset(file, partSize, n, done + 1) <= |file|
    ensures Slice(file, partSize, done + 1)
            == file[Offset(file, partSize, n, done)..Offset(file, partSize, n, done + 1)]
  {
    SliceLength(file, partSize, n, done + 1);
    if done + 1 < n {
      OffsetsGrow(done, n - 1, partSize);
      assert (done + 1) * partSize == done * partSize + partSize;
    }
  }

  lemma AssembleFrom(parts: map<nat, Bytes>, done: nat, n: nat)
    requires done < n && forall p :: done < p <= n ==> p in parts
    ensures Assemble(parts, From(done, n)) == parts[done + 1] + Assemble(parts, From(done + 1, n))
  {
    assert From(done, n)[1..] == From(done + 1, n);
  }

  lemma {:induction false} AllPartsAreTheFile(
    parts: map<nat, Bytes>, file: Bytes, partSize: nat, n: nat, done: nat)
    requires partSize > 0 && Cuts(n, |file|, partSize) && OwnSlices(parts, file, partSize, n) && done <= n
    requires forall p :: done < p <= n ==> p in parts
    ensures Offset(file, partSize, n, done) <= |file|
    ensures Assemble(parts, From(done, n)) == file[Offset(file, partSize, n, done)..]
    decreases n - done
  {
    if done < n {
      AllPartsAreTheFile(parts, file, partSize, n, done + 1);
      AssembleFrom(parts, done, n);
      NextSlice(parts, file, partSize, n, done);
    }
  }

  lemma NextSlice(parts: map<nat, Bytes>, file: Bytes, partSize: nat, n: nat, done: nat)
    requires partSize > 0 && Cuts(n, |file|, partSize) && OwnSlices(parts, file, partSize, n)
    requires done < n && done + 1 in parts
    ensures Offset(file, partSize, n, done) <= Offset(file, partSize, n, done + 1) <= |file|
    ensures parts[done + 1] + file[Offset(file, partSize, n, done + 1)..] == file[Offset(file, partSize, n, done)..]
  {
    OffsetsAreInFile(file, partSize, n, done);
    JoinAt(file, Offset(file, partSize, n, done), Offset(file, partSize, n, done + 1));
  }

  lemma JoinAt(file: Bytes, a: nat, b: nat)
    requires a <= b <= |file|
    ensures file[a..b] + file[b..] == file[a..]
  {}

  /** A selection of the parts after `done` never exceeds what remains, and reaches it only by taking them all. */
  lemma {:induction false} SelectionLength(
    parts: map<nat, Bytes>, file: Bytes, partSize: nat, n: nat, selection: seq<nat>, done: nat)
    requires partSize > 0 && Cuts(n, |file|, partSize) && OwnSlices(parts, file, partSize, n) && done <= n
    requires Ascending(selection) && forall p :: p in selection ==> p in parts && p > done
    ensures Offset(file, partSize, n, done) <= |file|
    ensures |Assemble(parts, selection)| <= |file| - Offset(file, partSize, n, done)
    ensures |Assemble(parts, selection)| == |file| - Offset(file, partSize, n, done) ==> selection == From(done, n)
    decreases n - done
  {
    if selection != [] {
      assert selection[0] in selection;
    }
    if done < n {
      OffsetsAreInFile(file, partSize, n, done);
      assert From(done, n) == [done + 1] + From(done + 1, n);
      if selection != [] && selection[0] == done + 1 {
        TailIsLater(selection, done);
        SelectionLength(parts, file, partSize, n, selection[1..], done + 1);
        assert selection == [done + 1] + selection[1..];
      } else {
        HeadIsFirst(selection, done);
        SelectionLength(parts, file, partSize, n, selection, done + 1);
      }
    }
  }

  lemma TailIsLater(selection: seq<nat>, done: nat)
    requires Ascending(selection) && selection != [] && selection[0] == done + 1
    ensures Ascending(selection[1..]) && forall p :: p in selection[1..] ==> p in selection && p > done + 1
  {
    forall p | p in selection[1..] ensures p in selection && p > done + 1 {
      var i :| 0 <= i < |selection| - 1 && selection[1..][i] == p;
      assert selection[i + 1] == p && selection[0] < selection[i + 1];
    }
  }

  lemma HeadIsFirst(selection: seq<nat>, done: nat)
    requires Ascending(selection) && (selection != [] ==> selection[0] > done + 1)
    ensures forall p :: p in selection ==> p > done + 1
  {
    forall p | p in selection ensures p > done + 1 {
      var i :| 0 <= i < |selection| && selection[i] == p;
      assert i == 0 || selection[0] < selection[i];
    }
  }

  /** The final size check alone rules out missing parts: with parts that are the file's own slices, an ascending
      selection has the declared length exactly when it takes every part, and then the object is the file. */
  lemma SizeCheckForcesTheFile(parts: map<nat, Bytes>, file: Bytes, partSize: nat, selection: seq<nat>)
    requires partSize > 0 && |file| > 0 && OwnSlices(parts, file, partSize, NumParts(|file|, partSize))
    requires Ascending(selection) && forall p :: p in selection ==> p in parts
    ensures |Assemble(parts, selection)| <= |file|
    ensures |Assemble(parts, selection)| == |file| <==> selection == PartNumbers(NumParts(|file|, partSize))
    ensures |Assemble(parts, selection)| == |file| ==> Assemble(parts, selection) == file
  {
    var n := NumParts(|file|, partSize);
    NumPartsCuts(|file|, partSize);
    assert From(0, n) == PartNumbers(n);
    assert Offset(file, partSize, n, 0) == 0;
    forall p | p in selection ensures p > 0 {
      assert p in parts;
    }
    SelectionLength(parts, file, partSize, n, selection, 0);
    if selection == From(0, n) {
      forall p | 0 < p <= n ensures p in parts {
        assert selection[p - 1] == p;
      }
      AllPartsAreTheFile(parts, file, partSize, n, 0);
    }
  }

  // ---- the completed and missing parts of a resumed upload ----

  function Without(numbers: seq<nat>, dropped: set<nat>): seq<nat> {
    if numbers == [] then []
    else (if numbers[0] in dropped then [] else [numbers[0]]) + Without(numbers[1..], dropped)
  }

  /** `getUploadParts`: the numbers of 1..n not among the completed ones. */
  function Missing(n: nat, completed: set<nat>): seq<nat> {
    Without(PartNumbers(n), completed)
  }

  lemma {:induction false} WithoutFilters(numbers: seq<nat>, dropped: set<nat>, k: nat)
    ensures k in Without(numbers, dropped) <==> k in numbers && k !in dropped
  {
    if numbers != [] {
      assert numbers == [numbers[0]] + numbers[1..];
      WithoutFilters(numbers[1..], dropped, k);
    }
  }

  lemma {:induction false} WithoutKeepsOrder(numbers: seq<nat>, dropped: set<nat>)
    requires Ascending(numbers)
    ensures Ascending(Without(numbers, dropped))
  {
    if numbers != [] {
      var rest := numbers[1..];
      WithoutKeepsOrder(rest, dropped);
      var kept := Without(rest, dropped);
      forall j | 0 <= j < |kept| ensures numbers[0] < kept[j] {
        WithoutFilters(rest, dropped, kept[j]);
        var i :| 0 <= i < |rest| && rest[i] == kept[j];
        assert numbers[i + 1] == kept[j];
      }
    }
  }

  /** The missing parts are exactly the others of 1..n, in order. */
  lemma MissingIsTheRest(n: nat, completed: set<nat>)
    ensures Ascending(Missing(n, completed))
    ensures forall k: nat :: k in Missing(n, completed) <==> 1 <= k <= n && k !in completed
  {
    WithoutKeepsOrder(PartNumbers(n), completed);
    forall k: nat ensures k in Missing(n, completed) <==> 1 <= k <= n && k !in completed {
      WithoutFilters(PartNumbers(n), completed, k);
      assert 1 <= k <= n ==> PartNumbers(n)[k - 1] == k;
    }
  }

  // ---- sorting what is sent to complete ----

  /** A part number with what is known of the part: its ETag, or its ETag and size. */
  datatype Part<+T> = Part(number: nat, item: T)

  function Insert<T>(p: Part<T>, sorted: seq<Part<T>>): seq<Part<T>> {
    if sorted == [] || p.number < sorted[0].number then [p] + sorted else [sorted[0]] + Insert(p, sorted[1..])
  }

  /** The stable sort by part number. */
  function SortParts<T>(parts: seq<Part<T>>): seq<Part<T>> {
    if parts == [] then [] else Insert(parts[|parts| - 1], SortParts(parts[..|parts| - 1]))
  }

  function Numbers<T>(parts: seq<Part<T>>): seq<nat> {
    seq(|parts|, i requires 0 <= i < |parts| => parts[i].number)
  }

  predicate DistinctNumbers<T>(parts: seq<Part<T>>) {
    forall i, j :: 0 <= i < j < |parts| ==> parts[i].number != parts[j].number
  }

  lemma {:induction false} InsertKeepsAscending<T>(p: Part<T>, sorted: seq<Part<T>>)
    requires Ascending(Numbers(sorted)) && p.number !in Numbers(sorted)
    ensures Ascending(Numbers(Insert(p, sorted)))
    ensures forall q :: q in Insert(p, sorted) <==> q == p || q in sorted
  {
    if sorted != [] {
      assert Numbers(sorted)[0] == sorted[0].number;
      if p.number < sorted[0].number {
        assert Numbers([p] + sorted) == [p.number] + Numbers(sorted);
      } else {
        var rest := sorted[1..];
        assert Numbers(sorted) == [sorted[0].number] + Numbers(rest);
        assert Numbers(rest) == Numbers(sorted)[1..];
        InsertKeepsAscending(p, rest);
        var after := Insert(p, rest);
        assert Numbers([sorted[0]] + after) == [sorted[0].number] + Numbers(after);
        forall j | 0 <= j < |after| ensures sorted[0].number < after[j].number {
          assert after[j] in after;
          if after[j] != p {
            var i :| 0 <= i < |rest| && rest[i] == after[j];
            assert Numbers(sorted)[0] < Numbers(sorted)[i + 1];
          }
        }
      }
    }
  }

  lemma {:induction false} InsertAdds<T>(p: Part<T>, sorted: seq<Part<T>>)
    ensures multiset(Insert(p, sorted)) == multiset{p} + multiset(sorted)
  {
    if sorted != [] {
      assert sorted == [sorted[0]] + sorted[1..];
      InsertAdds(p, sorted[1..]);
    }
  }

  lemma {:induction false} SortKeeps<T>(parts: seq<Part<T>>)
    ensures multiset(SortParts(parts)) == multiset(parts)
  {
    if parts != [] {
      var init, last := parts[..|parts| - 1], parts[|parts| - 1];
      assert parts == init + [last];
      SortKeeps(init);
      InsertAdds(last, SortParts(init));
    }
  }

  /** Parts with distinct numbers come out in strictly ascending order, the same parts. */
  lemma {:induction false} SortOrders<T>(parts: seq<Part<T>>)
    requires DistinctNumbers(parts)
    ensures Ascending(Numbers(SortParts(parts)))
    ensures forall q :: q in SortParts(parts) <==> q in parts
  {
    if parts != [] {
      var init, last := parts[..|parts| - 1], parts[|parts| - 1];
      SortOrders(init);
      var sorted := SortParts(init);
      forall i | 0 <= i < |sorted| ensures sorted[i].number != last.number {
        var p := sorted[i];
        SortKeeps(init);
        assert p in multiset(sorted);
        assert p in multiset(init);
        var j :| 0 <= j < |init| && init[j] == p;
        assert parts[j] == p;
      }
      InsertKeepsAscending(last, sorted);
      assert parts == init + [last];
    }
  }

  /** An ascending list of exactly the numbers after `done` is that range. */
  lemma {:induction false} AscendingRange(numbers: seq<nat>, done: nat, n: nat)
    requires done <= n && Ascending(numbers)
    requires forall k: nat :: k in numbers <==> done < k <= n
    ensures numbers == From(done, n)
    decreases n - done
  {
    if numbers != [] {
      assert numbers[0] in numbers;
    }
    if done < n {
      assert done + 1 in numbers;
      var i :| 0 <= i < |numbers| && numbers[i] == done + 1;
      assert numbers[0] in numbers && numbers[0] <= numbers[i];
      var rest := numbers[1..];
      assert numbers == [done + 1] + rest;
      forall k: nat ensures k in rest <==> done + 1 < k <= n {
        if k in rest {
          var j :| 0 <= j < |rest| && rest[j] == k;
          assert numbers[0] < numbers[j + 1] && numbers[j + 1] in numbers;
        }
        if done + 1 < k <= n {
          assert k in numbers;
        }
      }
      AscendingRange(rest, done + 1, n);
      assert From(done, n) == [done + 1] + From(done + 1, n);
    }
  }

  /** Parts whose numbers are 1..n, each once, are sent as 1..n with no gap and no repeat. */
  lemma SortedPartsAreTheRange<T>(parts: seq<Part<T>>, n: nat)
    requires DistinctNumbers(parts)
    requires forall k: nat :: k in Numbers(parts) <==> 1 <= k <= n
    ensures Numbers(SortParts(parts)) == PartNumbers(n)
  {
    SortOrders(parts);
    var sorted := SortParts(parts);
    forall k: nat ensures k in Numbers(sorted) <==> 0 < k <= n {
      if k in Numbers(sorted) {
        var i :| 0 <= i < |sorted| && Numbers(sorted)[i] == k;
        assert sorted[i] in parts;
        var j :| 0 <= j < |parts| && parts[j] == sorted[i];
        assert Numbers(parts)[j] == k && k in Numbers(parts);
      }
      if 0 < k <= n {
        assert k in Numbers(parts);
        var j :| 0 <= j < |parts| && Numbers(parts)[j] == k;
        assert parts[j] in sorted;
        var i :| 0 <= i < |sorted| && sorted[i] == parts[j];
        assert Numbers(sorted)[i] == k;
      }
    }
    AscendingRange(Numbers(sorted), 0, n);
    assert From(0, n) == PartNumbers(n);
  }
}
