/** From sessions to the object: what any series of uploads, reloads and resumes makes of a file. */
module Sessions {
  import opened Base
  import opened Stores
  import opened UploadParts
  import opened Uploader
  import Rfc1321

  function Slices(file: Bytes, partSize: nat, n: nat): (slices: seq<Bytes>)
    ensures |slices| == n
  {
    seq(n, i requires 0 <= i => Slice(file, partSize, i + 1))
  }

  lemma SlicesCut(file: Bytes, partSize: nat, n: nat)
    ensures CutInto(file, partSize, Slices(file, partSize, n))
  {
    forall k {:trigger Slice(file, partSize, k)} | 1 <= k <= n
      ensures Slice(file, partSize, k) == Slices(file, partSize, n)[k - 1]
    {
    }
  }

  /** Whatever storage has received is the file's own. */
  predicate OwnParts(parts: map<nat, Bytes>, slices: seq<Bytes>) {
    forall k :: k in parts ==> Holds(parts, slices, k)
  }

  lemma SessionsKeepParts(before: map<nat, Bytes>, after: map<nat, Bytes>, slices: seq<Bytes>, numbers: seq<nat>)
    requires OwnParts(before, slices) && Wrote(before, after, slices, numbers)
    ensures OwnParts(after, slices)
  {
    forall k | k in after ensures Holds(after, slices, k) {
      if k in before && after[k] == before[k] {
        assert Holds(before, slices, k);
      }
    }
  }

  lemma OwnPartsAreSlices(parts: map<nat, Bytes>, file: Bytes, partSize: nat, n: nat)
    requires OwnParts(parts, Slices(file, partSize, n))
    ensures OwnSlices(parts, file, partSize, n)
  {
    forall k | k in parts ensures 1 <= k <= n && parts[k] == Slice(file, partSize, k) {
      assert Holds(parts, Slices(file, partSize, n), k);
    }
  }

  lemma OwnListedIsRight(
    md5: Bytes -> string, tagOf: Bytes -> string, file: Bytes, partSize: nat, k: nat, body: Bytes)
    requires TagsAreMd5(md5, tagOf) && k >= 1 && body == Slice(file, partSize, k)
    ensures Right(md5, file, partSize, Part(k, Listed(tagOf(body), |body|)))
  {
    OwnSliceIsClaimed(file, partSize, k, tagOf(body));
    assert Tagged(md5, body, tagOf(body));
  }

  lemma ListedAt(parts: map<nat, Bytes>, tagOf: Bytes -> string, n: nat, i: nat)
    requires i < |ListParts(parts, tagOf, n)|
    ensures var p := ListParts(parts, tagOf, n)[i];
            && p.number == Within(PartNumbers(n), parts.Keys)[i] && 1 <= p.number <= n && p.number in parts
            && p == Part(p.number, Listed(tagOf(parts[p.number]), |parts[p.number]|))
  {
    WithinIsKept(PartNumbers(n), parts.Keys);
    var k := Within(PartNumbers(n), parts.Keys)[i];
    assert k in Within(PartNumbers(n), parts.Keys);
    var j :| 0 <= j < n && PartNumbers(n)[j] == k;
  }

  /** The samples never refuse the file that was being sent, whatever was drawn. */
  lemma RightFilePasses(
    md5: Bytes -> string, tagOf: Bytes -> string, parts: map<nat, Bytes>, file: Bytes, partSize: nat, n: nat)
    requires TagsAreMd5(md5, tagOf) && OwnParts(parts, Slices(file, partSize, n))
    ensures AllRight(md5, file, partSize, ListParts(parts, tagOf, n))
  {
    var listed := ListParts(parts, tagOf, n);
    forall i | 0 <= i < |listed| ensures listed[i].number >= 1 && Right(md5, file, partSize, listed[i]) {
      ListedAt(parts, tagOf, n, i);
      var k := listed[i].number;
      assert Holds(parts, Slices(file, partSize, n), k);
      OwnListedIsRight(md5, tagOf, file, partSize, k, parts[k]);
    }
  }

  // ---- the object ----

  /** Storage holds all parts of the file. */
  predicate HoldsAll(parts: map<nat, Bytes>, slices: seq<Bytes>) {
    forall k :: 1 <= k <= |slices| ==> Holds(parts, slices, k)
  }

  /** With every part there, completing 1..n makes exactly the file, and the size check passes. */
  lemma AllPartsMakeTheFile(parts: map<nat, Bytes>, file: Bytes, partSize: nat)
    requires partSize > 0 && |file| > 0
    requires var slices := Slices(file, partSize, NumParts(|file|, partSize));
             OwnParts(parts, slices) && HoldsAll(parts, slices)
    ensures var all := PartNumbers(NumParts(|file|, partSize));
            && (forall k :: k in all ==> k in parts)
            && Ascending(all)
            && Assemble(parts, all) == file
  {
    var n := NumParts(|file|, partSize);
    var slices := Slices(file, partSize, n);
    forall k | k in PartNumbers(n) ensures k in parts {
      var i :| 0 <= i < n && PartNumbers(n)[i] == k;
      assert Holds(parts, slices, k);
    }
    OwnPartsAreSlices(parts, file, partSize, n);
    SizeCheckForcesTheFile(parts, file, partSize, PartNumbers(n));
  }

  lemma SentMeansHeld(
    parts: map<nat, Bytes>, tagOf: Bytes -> string, slices: seq<Bytes>, n: nat, sent: seq<Part<string>>)
    requires |slices| == n && SentAll(parts, tagOf, slices, PartNumbers(n), sent)
    ensures HoldsAll(parts, slices) && Numbers(sent) == PartNumbers(n)
  {
    forall k | 1 <= k <= n ensures Holds(parts, slices, k) {
      assert sent[k - 1].number == PartNumbers(n)[k - 1] == k;
    }
  }

  lemma MergedMeansHeld(
    before: map<nat, Bytes>, after: map<nat, Bytes>, tagOf: Bytes -> string, slices: seq<Bytes>, n: nat,
    asked: seq<Part<string>>)
    requires |slices| == n && Merged(before, after, tagOf, slices, n, asked) && OwnParts(before, slices)
    ensures HoldsAll(after, slices)
  {
    forall k | 1 <= k <= n ensures Holds(after, slices, k) {
      assert Numbers(asked)[k - 1] == PartNumbers(n)[k - 1] == k;
      assert FromEither(before, after, tagOf, slices, asked[k - 1]);
      assert k in before ==> Holds(before, slices, k);
    }
  }

  // ---- progress ----

  lemma {:induction false} SlicesAddUp(file: Bytes, partSize: nat, n: nat, done: nat)
    requires partSize > 0 && Cuts(n, |file|, partSize) && done <= n
    ensures Offset(file, partSize, n, done) == TotalSize(Slices(file, partSize, n), PartNumbers(done))
  {
    if done > 0 {
      var slices := Slices(file, partSize, n);
      SlicesAddUp(file, partSize, n, done - 1);
      OffsetsAreInFile(file, partSize, n, done - 1);
      assert PartNumbers(done)[..done - 1] == PartNumbers(done - 1);
      assert slices[done - 1] == Slice(file, partSize, done);
    }
  }

  /** A fresh session that ends by asking has announced as many bytes as the file has. */
  lemma FreshProgress(file: Bytes, partSize: nat)
    requires partSize > 0 && |file| > 0
    ensures var n := NumParts(|file|, partSize);
            TotalSize(Slices(file, partSize, n), PartNumbers(n)) == |file|
  {
    NumPartsCuts(|file|, partSize);
    SlicesAddUp(file, partSize, NumParts(|file|, partSize), NumParts(|file|, partSize));
  }

  lemma {:induction false} TotalOfConcat(slices: seq<Bytes>, a: seq<nat>, b: seq<nat>)
    ensures TotalSize(slices, a + b) == TotalSize(slices, a) + TotalSize(slices, b)
    decreases |b|
  {
    if b == [] {
      assert a + b == a;
    } else {
      var last := |b| - 1;
      assert (a + b)[..|a| + last] == a + b[..last];
      TotalOfConcat(slices, a, b[..last]);
    }
  }

  /** Sizes of the kept and of the dropped numbers add up. */
  lemma {:induction false} TotalSplits(slices: seq<Bytes>, numbers: seq<nat>, kept: set<nat>)
    ensures TotalSize(slices, Within(numbers, kept)) + TotalSize(slices, Without(numbers, kept))
            == TotalSize(slices, numbers)
  {
    if numbers != [] {
      var head, rest := [numbers[0]], numbers[1..];
      assert numbers == head + rest;
      TotalSplits(slices, rest, kept);
      TotalOfConcat(slices, head, rest);
      TotalOfConcat(slices, if numbers[0] in kept then head else [], Within(rest, kept));
      TotalOfConcat(slices, if numbers[0] in kept then [] else head, Without(rest, kept));
    }
  }

  lemma {:induction false} ListedSizes(
    parts: map<nat, Bytes>, tagOf: Bytes -> string, slices: seq<Bytes>, n: nat, i: nat)
    requires OwnParts(parts, slices) && i <= |ListParts(parts, tagOf, n)|
    ensures SumOfSizes(ListParts(parts, tagOf, n)[..i]) == TotalSize(slices, Within(PartNumbers(n), parts.Keys)[..i])
  {
    if i > 0 {
      var listed, numbers := ListParts(parts, tagOf, n), Within(PartNumbers(n), parts.Keys);
      assert listed[..i][..i - 1] == listed[..i - 1] && numbers[..i][..i - 1] == numbers[..i - 1];
      ListedSizes(parts, tagOf, slices, n, i - 1);
      ListedAt(parts, tagOf, n, i - 1);
      assert Holds(parts, slices, numbers[i - 1]);
    }
  }

  /** A resumed session that ends by asking has announced exactly the size of the file: the bytes storage already
      had and the bytes of the missing parts make it up. */
  lemma ResumeProgress(parts: map<nat, Bytes>, tagOf: Bytes -> string, file: Bytes, partSize: nat)
    requires partSize > 0 && |file| > 0
    requires OwnParts(parts, Slices(file, partSize, NumParts(|file|, partSize)))
    ensures var n := NumParts(|file|, partSize);
            SumOfSizes(ListParts(parts, tagOf, n))
            + TotalSize(Slices(file, partSize, n), Missing(n, parts.Keys)) == |file|
  {
    var n := NumParts(|file|, partSize);
    var slices, listed := Slices(file, partSize, n), ListParts(parts, tagOf, n);
    ListedSizes(parts, tagOf, slices, n, |listed|);
    assert listed[..|listed|] == listed;
    assert Within(PartNumbers(n), parts.Keys)[..|listed|] == Within(PartNumbers(n), parts.Keys);
    TotalSplits(slices, PartNumbers(n), parts.Keys);
    FreshProgress(file, partSize);
  }

  // ---- a file re-selected by mistake ----

  /** Two different contents with the same digest. */
  predicate Collide(md5: Bytes -> string, a: Bytes, b: Bytes) {
    a != b && md5(a) == md5(b)
  }

  lemma SameSizeSameShape(file: Bytes, other: Bytes, partSize: nat, k: nat)
    requires |file| == |other| && k >= 1
    ensures |Slice(file, partSize, k)| == |Slice(other, partSize, k)|
  {}

  /** A completed part of another file of the same size that agrees with the selected file is its own slice, or the
      two contents collide. */
  lemma AgreeingPart(
    md5: Bytes -> string, tagOf: Bytes -> string, file: Bytes, partSize: nat, k: nat, body: Bytes)
    requires TagsAreMd5(md5, tagOf) && k >= 1 && |body| == |Slice(file, partSize, k)|
    requires Right(md5, file, partSize, Part(k, Listed(tagOf(body), |body|)))
    ensures body == Slice(file, partSize, k) || Collide(md5, body, Slice(file, partSize, k))
  {
    OwnSliceIsClaimed(file, partSize, k, tagOf(body));
    assert Tagged(md5, body, tagOf(body));
  }

  /** Storage holds parts of `original`, and all of them passed as parts of `file`, which has the same size: either
      they are its own parts, or MD5 collides on one of them. */
  lemma PassedPartsAreOwn(
    md5: Bytes -> string, tagOf: Bytes -> string, parts: map<nat, Bytes>, original: Bytes, file: Bytes,
    partSize: nat, n: nat)
    requires TagsAreMd5(md5, tagOf) && |original| == |file| && OwnParts(parts, Slices(original, partSize, n))
    requires AllRight(md5, file, partSize, ListParts(parts, tagOf, n))
    ensures OwnParts(parts, Slices(file, partSize, n))
            || exists k :: k in parts && 1 <= k <= n && Collide(md5, parts[k], Slice(file, partSize, k))
  {
    forall k | k in parts
      ensures 1 <= k <= n
      ensures Holds(parts, Slices(file, partSize, n), k) || Collide(md5, parts[k], Slice(file, partSize, k))
    {
      assert Holds(parts, Slices(original, partSize, n), k);
      SameSizeSameShape(file, original, partSize, k);
      PassedPart(md5, tagOf, parts, file, partSize, n, k);
    }
  }

  lemma PassedPart(
    md5: Bytes -> string, tagOf: Bytes -> string, parts: map<nat, Bytes>, file: Bytes, partSize: nat, n: nat, k: nat)
    requires TagsAreMd5(md5, tagOf) && AllRight(md5, file, partSize, ListParts(parts, tagOf, n))
    requires k in parts && 1 <= k <= n && |parts[k]| == |Slice(file, partSize, k)|
    ensures parts[k] == Slice(file, partSize, k) || Collide(md5, parts[k], Slice(file, partSize, k))
  {
    WithinIsKept(PartNumbers(n), parts.Keys);
    assert PartNumbers(n)[k - 1] == k;
    var numbers := Within(PartNumbers(n), parts.Keys);
    assert k in numbers;
    var i :| 0 <= i < |numbers| && numbers[i] == k;
    ListedAt(parts, tagOf, n, i);
    assert Right(md5, file, partSize, ListParts(parts, tagOf, n)[i]);
    AgreeingPart(md5, tagOf, file, partSize, k, parts[k]);
  }

  /** A resume with another file of the same name, size and date, where every completed part was checked: what it asks
      for makes the selected file, unless MD5 collides on a completed part. */
  lemma WrongFileNeedsACollision(
    md5: Bytes -> string, tagOf: Bytes -> string, before: map<nat, Bytes>, after: map<nat, Bytes>, original: Bytes,
    file: Bytes, partSize: nat, asked: seq<Part<string>>)
    requires TagsAreMd5(md5, tagOf) && partSize > 0 && 0 < |file| == |original|
    requires var n := NumParts(|file|, partSize);
             && OwnParts(before, Slices(original, partSize, n))
             && AllRight(md5, file, partSize, ListParts(before, tagOf, n))
             && Wrote(before, after, Slices(file, partSize, n), Missing(n, before.Keys))
             && Merged(before, after, tagOf, Slices(file, partSize, n), n, asked)
    ensures || (exists k :: k in before && k >= 1 && Collide(md5, before[k], Slice(file, partSize, k)))
            || ((forall k :: k in Numbers(asked) ==> k in after) && Assemble(after, Numbers(asked)) == file)
  {
    var n := NumParts(|file|, partSize);
    var slices := Slices(file, partSize, n);
    PassedPartsAreOwn(md5, tagOf, before, original, file, partSize, n);
    if OwnParts(before, slices) {
      SessionsKeepParts(before, after, slices, Missing(n, before.Keys));
      MergedMeansHeld(before, after, tagOf, slices, n, asked);
      AllPartsMakeTheFile(after, file, partSize);
    }
  }

  // ---- a whole journey ----

  /** The session did not refuse the file. */
  predicate NotRefused(end: SessionEnd) {
    !end.WrongFile? && !end.OtherFile?
  }

  /** The PUTs of a session are of the file's own parts. */
  ghost predicate OwnPutsOnly(puts: seq<Put>, slices: seq<Bytes>) {
    forall p :: p in puts ==> 1 <= p.number <= |slices| && p.body == slices[p.number - 1] && !p.late
  }

  lemma SessionSendsOwn(before: seq<Put>, efforts: seq<Effort>, numbers: seq<nat>, slices: seq<Bytes>)
    requires OwnPutsOnly(before, slices) && InTurn(efforts, numbers, slices)
    ensures OwnPutsOnly(before + AllPuts(efforts), slices)
  {
    EachPutIsOwn(efforts, numbers, slices, |efforts|);
  }

  /** What a session leaves: the file's own parts, sent by PUTs of its own parts only, no more bytes announced than it
      has, and, when completion is asked for, every part. */
  ghost predicate SessionLeaves(
    parts: map<nat, Bytes>, log: seq<Put>, bytesSent: nat, end: SessionEnd, file: Bytes, slices: seq<Bytes>)
  {
    && OwnParts(parts, slices) && OwnPutsOnly(log, slices) && NotRefused(end) && bytesSent <= |file|
    && (end.Asked? ==>
          HoldsAll(parts, slices) && Numbers(end.parts) == PartNumbers(|slices|) && bytesSent == |file|)
  }

  method FirstSession(tab: Tab, file: Selected, partSize: nat, n: nat, ghost slices: seq<Bytes>)
    returns (end: SessionEnd)
    requires partSize > 0 && |file.bytes| > 0 && n == NumParts(|file.bytes|, partSize)
    requires slices == Slices(file.bytes, partSize, n) && tab.parts == map[] && tab.log == []
    modifies tab
    ensures SessionLeaves(tab.parts, tab.log, tab.bytesSent, end, file.bytes, slices)
    ensures tab.aborts == old(tab.aborts) + if end.Cancelled? then 1 else 0
  {
    SlicesCut(file.bytes, partSize, n);
    ghost var efforts;
    end, efforts := tab.StartFreshUpload(file, partSize, n, slices);
    SessionsKeepParts(map[], tab.parts, slices, PartNumbers(n));
    SessionSendsOwn([], efforts, PartNumbers(n), slices);
    FreshProgress(file.bytes, partSize);
    if end.Asked? {
      SentMeansHeld(tab.parts, tab.tagOf, slices, n, end.parts);
    }
  }

  /** After a reload the user selects the same file again. */
  method NextSession(
    tab: Tab, file: Selected, partSize: nat, n: nat, ghost slices: seq<Bytes>, ghost md5: Bytes -> string)
    returns (end: SessionEnd)
    requires IsMd5(md5) && TagsAreMd5(md5, tab.tagOf)
    requires partSize > 0 && |file.bytes| > 0 && n == NumParts(|file.bytes|, partSize)
    requires slices == Slices(file.bytes, partSize, n) && OwnParts(tab.parts, slices) && OwnPutsOnly(tab.log, slices)
    modifies tab
    ensures SessionLeaves(tab.parts, tab.log, tab.bytesSent, end, file.bytes, slices)
    ensures tab.aborts == old(tab.aborts) + if end.Cancelled? then 1 else 0
  {
    var target := Resumable(file.name, |file.bytes|, file.lastModified);
    SlicesCut(file.bytes, partSize, n);
    RightFilePasses(md5, tab.tagOf, tab.parts, file.bytes, partSize, n);
    ResumeProgress(tab.parts, tab.tagOf, file.bytes, partSize);
    ghost var efforts;
    end, efforts := tab.HandleResumeFile(file, target, partSize, n, slices, md5);
    SessionsKeepParts(old(tab.parts), tab.parts, slices, Missing(n, old(tab.parts).Keys));
    SessionSendsOwn(old(tab.log), efforts, Missing(n, old(tab.parts).Keys), slices);
    if end.Asked? {
      MergedMeansHeld(old(tab.parts), tab.parts, tab.tagOf, slices, n, end.parts);
    }
  }

  /** The user sends a file: a first attempt, then as many resumes as it takes, each of which may fail, be cut short by
      a reload at any PUT, or be cancelled for good. If some session gets to ask, completion makes exactly the file;
      none refuses it, and only a failed one or one that was cut short is followed by another; only the file's own
      parts are sent; the bytes announced never exceed it; and the server is asked to abort once if the user cancels,
      and never otherwise. */
  method SendFile(tab: Tab, file: Selected, partSize: nat, sessions: nat, ghost md5: Bytes -> string)
    returns (stored: Option<Bytes>, ends: seq<SessionEnd>)
    requires IsMd5(md5) && TagsAreMd5(md5, tab.tagOf) && tab.parts == map[] && partSize > 0 && |file.bytes| > 0
    requires tab.log == []
    modifies tab
    ensures 1 <= |ends| <= 1 + sessions && NotRefused(ends[|ends| - 1])
    ensures forall i :: 0 <= i < |ends| - 1 ==> ends[i].Failed? || ends[i].Left?
    ensures stored.Some? <==> ends[|ends| - 1].Asked?
    ensures stored.None? && |ends| < 1 + sessions ==> ends[|ends| - 1].Cancelled?
    ensures stored.Some? ==> stored.value == file.bytes && tab.bytesSent == |file.bytes|
    ensures tab.bytesSent <= |file.bytes|
    ensures tab.aborts == old(tab.aborts) + if ends[|ends| - 1].Cancelled? then 1 else 0
    ensures var slices := Slices(file.bytes, partSize, NumParts(|file.bytes|, partSize));
            OwnParts(tab.parts, slices) && OwnPutsOnly(tab.log, slices)
  {
    var n := NumParts(|file.bytes|, partSize);
    ghost var slices := Slices(file.bytes, partSize, n);
    var end := FirstSession(tab, file, partSize, n, slices);
    ends := [end];
    while (end.Failed? || end.Left?) && |ends| <= sessions
      invariant SessionLeaves(tab.parts, tab.log, tab.bytesSent, end, file.bytes, slices)
      invariant 1 <= |ends| <= 1 + sessions && ends[|ends| - 1] == end
      invariant forall i :: 0 <= i < |ends| - 1 ==> ends[i].Failed? || ends[i].Left?
      invariant tab.aborts == old(tab.aborts) + if end.Cancelled? then 1 else 0
      decreases 1 + sessions - |ends|
    {
      end := NextSession(tab, file, partSize, n, slices, md5);
      ends := ends + [end];
    }
    stored := None;
    if end.Asked? {
      stored := CompleteWith(tab, file, partSize, n, end.parts);
    }
  }

  /** The same against storage that tags a part with its quoted MD5: nothing is assumed any more. */
  method SendFileToStorage(file: Selected, partSize: nat, sessions: nat)
    returns (stored: Option<Bytes>, ends: seq<SessionEnd>)
    requires partSize > 0 && |file.bytes| > 0
    ensures 1 <= |ends| <= 1 + sessions && NotRefused(ends[|ends| - 1])
    ensures forall i :: 0 <= i < |ends| - 1 ==> ends[i].Failed? || ends[i].Left?
    ensures stored.Some? <==> ends[|ends| - 1].Asked?
    ensures stored.None? && |ends| < 1 + sessions ==> ends[|ends| - 1].Cancelled?
    ensures stored.Some? ==> stored.value == file.bytes
  {
    var tab := new Tab(ETag);
    QuotedTagsAreMd5(Rfc1321.Md5Hex, ETag);
    stored, ends := SendFile(tab, file, partSize, sessions, Rfc1321.Md5Hex);
  }

  /** `completeUpload`: the server sorts the posted parts, storage assembles them, the size must be the declared one. */
  method CompleteWith(tab: Tab, file: Selected, partSize: nat, n: nat, posted: seq<Part<string>>)
    returns (stored: Option<Bytes>)
    requires partSize > 0 && |file.bytes| > 0 && n == NumParts(|file.bytes|, partSize)
    requires var slices := Slices(file.bytes, partSize, n); OwnParts(tab.parts, slices) && HoldsAll(tab.parts, slices)
    requires Numbers(posted) == PartNumbers(n)
    ensures stored == Some(file.bytes)
  {
    AllPartsMakeTheFile(tab.parts, file.bytes, partSize);
    SortedIsUnchanged(posted);
    var selection := Numbers(SortParts(posted));
    var assembled := Assemble(tab.parts, selection);
    stored := if |assembled| == |file.bytes| then Some(assembled) else None;
  }

  lemma {:induction false} SortedIsUnchanged<T>(parts: seq<Part<T>>)
    requires Ascending(Numbers(parts))
    ensures SortParts(parts) == parts
  {
    if parts != [] {
      var init, last := parts[..|parts| - 1], parts[|parts| - 1];
      assert Numbers(init) == Numbers(parts)[..|parts| - 1];
      SortedIsUnchanged(init);
      forall i | 0 <= i < |init| ensures init[i].number < last.number {
        assert Numbers(parts)[i] < Numbers(parts)[|parts| - 1];
      }
      InsertLast(last, init);
      assert parts == init + [last];
    }
  }

  lemma {:induction false} InsertLast<T>(p: Part<T>, sorted: seq<Part<T>>)
    requires forall i :: 0 <= i < |sorted| ==> sorted[i].number < p.number
    ensures Insert(p, sorted) == sorted + [p]
  {
    if sorted != [] {
      InsertLast(p, sorted[1..]);
      assert sorted + [p] == [sorted[0]] + (sorted[1..] + [p]);
    }
  }
}
