/** The browser side of an upload: sending the parts, resuming after a reload, and what the file becomes. */
module Uploader {
  import opened Base
  import opened Stores
  import opened UploadParts
  import Rfc1321
  import Md5

  const MAX_PART_ATTEMPTS: nat := 3

  const RETRY_DELAYS_MS: seq<nat> := [500, 1500, 3000]

  // ---- entity tags ----

  /** Storage tags a part with the MD5 of its bytes, between double quotes. */
  function ETag(body: Bytes): string {
    "\"" + Rfc1321.Md5Hex(body) + "\""
  }

  /** `etag.replace(/"/g, '')`. */
  function StripQuotes(s: string): string {
    if s == "" then "" else (if s[0] == '\"' then "" else [s[0]]) + StripQuotes(s[1..])
  }

  lemma {:induction false} StripOfConcat(s: string, t: string)
    ensures StripQuotes(s + t) == StripQuotes(s) + StripQuotes(t)
  {
    if s == "" {
      assert s + t == t;
    } else {
      assert (s + t)[0] == s[0] && (s + t)[1..] == s[1..] + t;
      StripOfConcat(s[1..], t);
    }
  }

  lemma DigitsAreNotQuotes(n: nat)
    requires n < 16
    ensures Rfc1321.Digit(n) != '\"'
  {}

  lemma {:induction false} HexHasNoQuotes(bytes: Bytes)
    ensures StripQuotes(Rfc1321.Hex(bytes)) == Rfc1321.Hex(bytes)
  {
    if bytes != [] {
      var hi, lo := Rfc1321.Digit(bytes[0] as int / 16), Rfc1321.Digit(bytes[0] as int % 16);
      DigitsAreNotQuotes(bytes[0] as int / 16);
      DigitsAreNotQuotes(bytes[0] as int % 16);
      var rest := Rfc1321.Hex(bytes[1..]);
      HexHasNoQuotes(bytes[1..]);
      StripOfConcat([hi], [lo] + rest);
      StripOfConcat([lo], rest);
      assert StripQuotes([hi]) == [hi] && StripQuotes([lo]) == [lo];
      assert Rfc1321.Hex(bytes) == [hi] + ([lo] + rest);
    }
  }

  /** Without its quotes, a tag is the digest the browser computes. */
  lemma StrippedTag(body: Bytes)
    ensures StripQuotes(ETag(body)) == Rfc1321.Md5Hex(body)
  {
    var hex := Rfc1321.Md5Hex(body);
    HexHasNoQuotes(Rfc1321.Output(Rfc1321.Digest(body)));
    StripOfConcat("\"", hex + "\"");
    StripOfConcat(hex, "\"");
    assert ETag(body) == "\"" + (hex + "\"");
  }

  // ---- what sessions leave in the open upload ----

  /** `slices` are the file's own parts, in order. */
  ghost predicate CutInto(file: Bytes, partSize: nat, slices: seq<Bytes>) {
    forall k {:trigger Slice(file, partSize, k)} :: 1 <= k <= |slices| ==> Slice(file, partSize, k) == slices[k - 1]
  }

  /** Part `k` was received with the file's own bytes. */
  predicate Holds(parts: map<nat, Bytes>, slices: seq<Bytes>, k: nat) {
    1 <= k <= |slices| && k in parts && parts[k] == slices[k - 1]
  }

  /** Every part is as before, or is one of `numbers` and holds the file's own slice. */
  ghost predicate Wrote(before: map<nat, Bytes>, after: map<nat, Bytes>, slices: seq<Bytes>, numbers: seq<nat>) {
    && before.Keys <= after.Keys
    && forall k {:trigger k in after} :: k in after ==>
         (k in before && after[k] == before[k]) || (k in numbers && Holds(after, slices, k))
  }

  predicate AllWithin(numbers: seq<nat>, n: nat) {
    forall i :: 0 <= i < |numbers| ==> 1 <= numbers[i] <= n
  }

  function SizeOf(slices: seq<Bytes>, k: nat): nat {
    if 1 <= k <= |slices| then |slices[k - 1]| else 0
  }

  function TotalSize(slices: seq<Bytes>, numbers: seq<nat>): nat {
    if numbers == [] then 0
    else
      var last := |numbers| - 1;
      TotalSize(slices, numbers[..last]) + SizeOf(slices, numbers[last])
  }

  // ---- what the server lists ----

  datatype Listed = Listed(etag: string, size: nat)

  function Within(numbers: seq<nat>, kept: set<nat>): seq<nat> {
    if numbers == [] then []
    else (if numbers[0] in kept then [numbers[0]] else []) + Within(numbers[1..], kept)
  }

  /** `ListParts`: number, ETag and size of each part received, by number. */
  function ListParts(parts: map<nat, Bytes>, tagOf: Bytes -> string, n: nat): seq<Part<Listed>> {
    var numbers := Within(PartNumbers(n), parts.Keys);
    WithinIsKept(PartNumbers(n), parts.Keys);
    seq(|numbers|, i requires 0 <= i < |numbers| =>
      assert numbers[i] in numbers;
      Part(numbers[i], Listed(tagOf(parts[numbers[i]]), |parts[numbers[i]]|)))
  }

  lemma {:induction false} WithinIsKept(numbers: seq<nat>, kept: set<nat>)
    ensures forall k :: k in Within(numbers, kept) <==> k in numbers && k in kept
  {
    if numbers != [] {
      assert numbers == [numbers[0]] + numbers[1..];
      WithinIsKept(numbers[1..], kept);
    }
  }

  lemma {:induction false} WithinKeepsOrder(numbers: seq<nat>, kept: set<nat>)
    requires Ascending(numbers)
    ensures Ascending(Within(numbers, kept))
  {
    if numbers != [] {
      var rest := numbers[1..];
      WithinKeepsOrder(rest, kept);
      WithinIsKept(rest, kept);
      forall j | 0 <= j < |Within(rest, kept)| ensures numbers[0] < Within(rest, kept)[j] {
        assert Within(rest, kept)[j] in Within(rest, kept);
        var i :| 0 <= i < |rest| && rest[i] == Within(rest, kept)[j];
        assert numbers[i + 1] == rest[i];
      }
    }
  }

  /** What is listed as completed and what is listed as missing split 1..n, and their sizes add up. */
  lemma ListingSplits(parts: map<nat, Bytes>, tagOf: Bytes -> string, n: nat)
    ensures Numbers(ListParts(parts, tagOf, n)) == Within(PartNumbers(n), parts.Keys)
    ensures Ascending(Numbers(ListParts(parts, tagOf, n))) && Ascending(Missing(n, parts.Keys))
    ensures forall k: nat :: 1 <= k <= n <==>
              (k in Numbers(ListParts(parts, tagOf, n)) || k in Missing(n, parts.Keys))
    ensures forall k :: !(k in Numbers(ListParts(parts, tagOf, n)) && k in Missing(n, parts.Keys))
  {
    var all := PartNumbers(n);
    WithinIsKept(all, parts.Keys);
    WithinKeepsOrder(all, parts.Keys);
    WithoutKeepsOrder(all, parts.Keys);
    forall k: nat ensures 1 <= k <= n <==> k in all {
      assert 1 <= k <= n ==> all[k - 1] == k;
    }
    forall k: nat ensures k in Missing(n, parts.Keys) <==> k in all && k !in parts.Keys {
      WithoutFilters(all, parts.Keys, k);
    }
    assert Numbers(ListParts(parts, tagOf, n)) == Within(all, parts.Keys);
  }

  // ---- one tab ----

  datatype PutOutcome = Stored(etag: string) | Refused | Aborted | Unloaded

  datatype SendResult = Sent(parts: seq<Part<string>>) | SendCancelled | SendFailed | SendLeft

  /** The file the user selects, and what the tab remembered of the interrupted upload. */
  datatype Selected = Selected(name: string, bytes: Bytes, lastModified: int)

  datatype Resumable = Resumable(originalName: string, sizeBytes: nat, lastModified: int)

  datatype SessionEnd =
    | Asked(parts: seq<Part<string>>)  // the list posted to complete
    | OtherFile                        // name, size or date differ
    | WrongFile                        // a sampled part differs
    | Cancelled
    | Failed
    | Left                             // the page was closed or reloaded

  /** What the user's file has in the place of a listed part. */
  function Claimed(file: Bytes, partSize: nat, part: Part<Listed>): Bytes
    requires part.number >= 1
  {
    var start := PartStart(partSize, part.number);
    BlobSlice(file, start, start + part.item.size)
  }

  /** `md5` is the digest of RFC 1321. */
  ghost predicate IsMd5(md5: Bytes -> string) {
    forall body {:trigger Rfc1321.Md5Hex(body)} :: Rfc1321.Md5Hex(body) == md5(body)
  }

  predicate Tagged(md5: Bytes -> string, body: Bytes, etag: string) {
    md5(body) == StripQuotes(etag)
  }

  /** The user's file agrees with a part storage lists. */
  predicate Right(md5: Bytes -> string, file: Bytes, partSize: nat, part: Part<Listed>)
    requires part.number >= 1
  {
    Tagged(md5, Claimed(file, partSize, part), part.item.etag)
  }

  lemma SameSlice(file: Bytes, start: nat, partSize: nat)
    ensures var body := BlobSlice(file, start, start + partSize); BlobSlice(file, start, start + |body|) == body
  {}

  lemma OwnTag(md5: Bytes -> string, body: Bytes)
    requires IsMd5(md5)
    ensures Tagged(md5, body, ETag(body))
  {
    StrippedTag(body);
  }

  /** A part that holds the file's own slice is found in its place. */
  lemma OwnSliceIsClaimed(file: Bytes, partSize: nat, number: nat, etag: string)
    requires number >= 1
    ensures var body := Slice(file, partSize, number);
            Claimed(file, partSize, Part(number, Listed(etag, |body|))) == body
  {
    var start := PartStart(partSize, number);
    var body := BlobSlice(file, start, start + partSize);
    SameSlice(file, start, partSize);
    assert Claimed(file, partSize, Part(number, Listed(etag, |body|))) == BlobSlice(file, start, start + |body|);
  }

  predicate AllRight(md5: Bytes -> string, file: Bytes, partSize: nat, parts: seq<Part<Listed>>) {
    forall i :: 0 <= i < |parts| ==> parts[i].number >= 1 && Right(md5, file, partSize, parts[i])
  }

  predicate Positive<T>(parts: seq<Part<T>>) {
    forall i :: 0 <= i < |parts| ==> parts[i].number >= 1
  }

  /** What is assumed of storage: a tag is the MD5 of the part, whatever quotes surround it. */
  ghost predicate TagsAreMd5(md5: Bytes -> string, tagOf: Bytes -> string) {
    forall body :: Tagged(md5, body, tagOf(body))
  }

  /** Storage that answers quoted digests meets the assumption. */
  lemma QuotedTagsAreMd5(md5: Bytes -> string, tagOf: Bytes -> string)
    requires IsMd5(md5)
    requires forall body :: tagOf(body) == ETag(body)
    ensures TagsAreMd5(md5, tagOf)
  {
    forall body ensures Tagged(md5, body, tagOf(body)) {
      OwnTag(md5, body);
    }
  }

  /** A member of a sorted list is a member of the list. */
  lemma SortedMember<T>(parts: seq<Part<T>>, p: Part<T>) returns (j: nat)
    requires p in SortParts(parts)
    ensures j < |parts| && parts[j] == p
  {
    SortKeeps(parts);
    assert p in multiset(SortParts(parts));
    assert p in multiset(parts);
    j :| 0 <= j < |parts| && parts[j] == p;
  }

  lemma SortedLength<T>(parts: seq<Part<T>>)
    ensures |SortParts(parts)| == |parts|
  {
    SortKeeps(parts);
    assert |multiset(SortParts(parts))| == |SortParts(parts)|;
  }

  lemma RightUnsorted(md5: Bytes -> string, file: Bytes, partSize: nat, parts: seq<Part<Listed>>)
    requires AllRight(md5, file, partSize, SortParts(parts))
    ensures AllRight(md5, file, partSize, parts)
  {
    SortKeeps(parts);
    forall i | 0 <= i < |parts| ensures parts[i].number >= 1 && Right(md5, file, partSize, parts[i]) {
      assert parts[i] in multiset(parts);
      assert parts[i] in multiset(SortParts(parts));
      var j :| 0 <= j < |parts| && SortParts(parts)[j] == parts[i];
    }
  }

  /** The browser's digest of a chunk. */
  method Md5OfChunk(ghost md5: Bytes -> string, chunk: Bytes) returns (hex: string)
    requires IsMd5(md5)
    ensures hex == md5(chunk)
  {
    var buffer := new Byte[|chunk|](i requires 0 <= i < |chunk| => chunk[i]);
    assert buffer[..] == chunk;
    hex := Md5.Md5HexOf(buffer);
  }

  /** One sampled part. */
  method CheckSample(ghost md5: Bytes -> string, file: Bytes, partSize: nat, part: Part<Listed>) returns (same: bool)
    requires IsMd5(md5) && part.number >= 1
    ensures same == Right(md5, file, partSize, part)
  {
    var start := PartStart(partSize, part.number);
    var chunk := BlobSlice(file, start, start + part.item.size);
    var computed := Md5OfChunk(md5, chunk);
    var expected := StripQuotes(part.item.etag);
    same := computed == expected;
  }

  predicate RightAt(md5: Bytes -> string, file: Bytes, partSize: nat, parts: seq<Part<Listed>>, i: nat) {
    i < |parts| && parts[i].number >= 1 && Right(md5, file, partSize, parts[i])
  }

  /** What a sample that passed tells: the first part, the last and one in between agree with the file; up to three
      parts, all do. */
  predicate Sampled(md5: Bytes -> string, file: Bytes, partSize: nat, completed: seq<Part<Listed>>) {
    var sorted := SortParts(completed);
    && (|completed| > 0 ==>
          RightAt(md5, file, partSize, sorted, 0) && RightAt(md5, file, partSize, sorted, |completed| - 1))
    && (|completed| > 2 ==> exists m: nat :: 0 < m < |completed| - 1 && RightAt(md5, file, partSize, sorted, m))
    && (|completed| <= 3 ==> AllRight(md5, file, partSize, completed))
  }

  /** Checks a sample of the completed parts: the first, the last and one in between drawn at random. */
  method VerifyCompletedParts(
    ghost md5: Bytes -> string, file: Bytes, partSize: nat, completed: seq<Part<Listed>>)
    returns (verified: bool)
    requires IsMd5(md5) && Positive(completed)
    ensures AllRight(md5, file, partSize, completed) ==> verified
    ensures verified ==> Sampled(md5, file, partSize, completed)
  {
    SortedLength(completed);
    if |completed| == 0 {
      return true;
    }
    var sorted := SortParts(completed);
    var last := |sorted| - 1;
    var sampleIndexes := if last == 0 then [0] else [0, last];
    if |sorted| > 2 {
      var draw: nat :| draw < |sorted| - 2;
      sampleIndexes := sampleIndexes + [1 + draw];
    }
    for i := 0 to |sampleIndexes|
      invariant forall j :: 0 <= j < i ==> RightAt(md5, file, partSize, sorted, sampleIndexes[j])
    {
      var part := sorted[sampleIndexes[i]];
      assert part in sorted;
      ghost var at := SortedMember(completed, part);
      var same := CheckSample(md5, file, partSize, part);
      if !same {
        return false;
      }
    }
    verified := true;
    assert RightAt(md5, file, partSize, sorted, sampleIndexes[0]);
    assert last > 0 ==> RightAt(md5, file, partSize, sorted, sampleIndexes[1]);
    assert last > 1 ==> RightAt(md5, file, partSize, sorted, sampleIndexes[2]);
    if |sorted| <= 3 {
      FewAreAll(md5, file, partSize, sorted, if last > 1 then sampleIndexes[2] else 0);
      RightUnsorted(md5, file, partSize, completed);
    }
  }

  /** Up to three parts, the first, the last and an inner one are all of them. */
  lemma FewAreAll(md5: Bytes -> string, file: Bytes, partSize: nat, sorted: seq<Part<Listed>>, m: nat)
    requires 0 < |sorted| <= 3 && RightAt(md5, file, partSize, sorted, 0)
    requires RightAt(md5, file, partSize, sorted, |sorted| - 1)
    requires |sorted| > 2 ==> 0 < m < |sorted| - 1 && RightAt(md5, file, partSize, sorted, m)
    ensures AllRight(md5, file, partSize, sorted)
  {
    forall i | 0 <= i < |sorted| ensures RightAt(md5, file, partSize, sorted, i) {
      assert i == 0 || i == |sorted| - 1 || i == m;
    }
  }

  // ---- one session ----

  predicate Matches(file: Selected, target: Resumable) {
    file.name == target.originalName && |file.bytes| == target.sizeBytes && file.lastModified == target.lastModified
  }

  function EndOf(result: SendResult): SessionEnd {
    match result
    case Sent(parts) => Asked(parts)
    case SendCancelled => Cancelled
    case SendFailed => SessionEnd.Failed
    case SendLeft => Left
  }

  function SumOfSizes(parts: seq<Part<Listed>>): nat {
    if parts == [] then 0 else SumOfSizes(parts[..|parts| - 1]) + parts[|parts| - 1].item.size
  }

  function Untagged(completed: seq<Part<Listed>>): seq<Part<string>> {
    seq(|completed|, i requires 0 <= i < |completed| => Part(completed[i].number, completed[i].item.etag))
  }

  lemma MissingIsWithin(n: nat, completed: set<nat>)
    ensures AllWithin(Missing(n, completed), n) && AllWithin(PartNumbers(n), n)
  {
    forall i | 0 <= i < |Missing(n, completed)| ensures 1 <= Missing(n, completed)[i] <= n {
      WithoutFilters(PartNumbers(n), completed, Missing(n, completed)[i]);
    }
  }

  lemma ListedArePositive(parts: map<nat, Bytes>, tagOf: Bytes -> string, n: nat)
    ensures Positive(ListParts(parts, tagOf, n))
  {
    var numbers := Within(PartNumbers(n), parts.Keys);
    WithinIsKept(PartNumbers(n), parts.Keys);
    forall i | 0 <= i < |numbers| ensures numbers[i] >= 1 {
      assert numbers[i] in numbers;
    }
  }

  /** The list posted after a resume: 1..n in order, each with the tag of the part storage holds, the parts listed
      as completed untouched, the others the file's own slices. */
  predicate Merged(
    before: map<nat, Bytes>, after: map<nat, Bytes>, tagOf: Bytes -> string, slices: seq<Bytes>, n: nat,
    asked: seq<Part<string>>)
  {
    && Numbers(asked) == PartNumbers(n)
    && forall i :: 0 <= i < |asked| ==> FromEither(before, after, tagOf, slices, asked[i])
  }

  predicate FromEither(
    before: map<nat, Bytes>, after: map<nat, Bytes>, tagOf: Bytes -> string, slices: seq<Bytes>, p: Part<string>)
  {
    && p.number in after && p.item == tagOf(after[p.number])
    && if p.number in before then after[p.number] == before[p.number] else Holds(after, slices, p.number)
  }

  /** Completed and sent parts together, as they are merged. */
  lemma MergedInOrder(
    before: map<nat, Bytes>, after: map<nat, Bytes>, tagOf: Bytes -> string, slices: seq<Bytes>, n: nat,
    sent: seq<Part<string>>)
    requires Wrote(before, after, slices, Missing(n, before.Keys))
    requires SentAll(after, tagOf, slices, Missing(n, before.Keys), sent)
    ensures Merged(before, after, tagOf, slices, n, SortParts(Untagged(ListParts(before, tagOf, n)) + sent))
  {
    var completed := Untagged(ListParts(before, tagOf, n));
    var all := completed + sent;
    MergeIsTheRange(before, tagOf, n, sent);
    SortedPartsAreTheRange(all, n);
    var asked := SortParts(all);
    forall i | 0 <= i < |asked| ensures FromEither(before, after, tagOf, slices, asked[i]) {
      assert asked[i] in asked;
      var j := SortedMember(all, asked[i]);
      EachIsFromEither(before, after, tagOf, slices, n, sent, j);
    }
  }

  lemma EachIsFromEither(
    before: map<nat, Bytes>, after: map<nat, Bytes>, tagOf: Bytes -> string, slices: seq<Bytes>, n: nat,
    sent: seq<Part<string>>, j: nat)
    requires Wrote(before, after, slices, Missing(n, before.Keys))
    requires SentAll(after, tagOf, slices, Missing(n, before.Keys), sent)
    requires j < |ListParts(before, tagOf, n)| + |sent|
    ensures FromEither(before, after, tagOf, slices, (Untagged(ListParts(before, tagOf, n)) + sent)[j])
  {
    var completed, missing := ListParts(before, tagOf, n), Missing(n, before.Keys);
    if j < |completed| {
      WithinIsKept(PartNumbers(n), before.Keys);
      var k := Within(PartNumbers(n), before.Keys)[j];
      assert k in Within(PartNumbers(n), before.Keys);
      WithoutFilters(PartNumbers(n), before.Keys, k);
    } else {
      WithoutFilters(PartNumbers(n), before.Keys, missing[j - |completed|]);
    }
  }

  lemma MergeIsTheRange(before: map<nat, Bytes>, tagOf: Bytes -> string, n: nat, sent: seq<Part<string>>)
    requires Numbers(sent) == Missing(n, before.Keys)
    ensures var all := Untagged(ListParts(before, tagOf, n)) + sent;
            DistinctNumbers(all) && forall k: nat :: k in Numbers(all) <==> 1 <= k <= n
  {
    ListingSplits(before, tagOf, n);
    var listed, missing := Numbers(ListParts(before, tagOf, n)), Missing(n, before.Keys);
    var all := Untagged(ListParts(before, tagOf, n)) + sent;
    assert Numbers(all) == listed + missing;
    forall i, j | 0 <= i < j < |all| ensures all[i].number != all[j].number {
      var x, y := (listed + missing)[i], (listed + missing)[j];
      assert all[i].number == x && all[j].number == y;
      assert i < |listed| ==> x in listed;
      assert j >= |listed| ==> y in missing;
    }
  }

  /** How a call ends on a part that storage has not confirmed. */
  function Unsent(outcome: PutOutcome): SendResult {
    if outcome.Aborted? then SendCancelled else if outcome.Unloaded? then SendLeft else SendFailed
  }

  // ---- what a call sent ----

  /** One PUT: the part it carried, whether the user had already asked to cancel, the pause in milliseconds since the
      PUT before it, and how it ended. */
  datatype Put = Put(number: nat, body: Bytes, late: bool, waited: nat, outcome: PutOutcome)

  /** The attempts at one part: PUTs of its bytes that were refused, and the last PUT, however it ended. */
  datatype Effort = Effort(number: nat, body: Bytes, refusals: nat, last: PutOutcome)

  /** The pause before an attempt: none before the first, then half a second, then one and a half. */
  function PauseBefore(attempt: nat): nat {
    match attempt
    case 1 => 500
    case 2 => 1500
    case _ => 0
  }

  function Refusals(number: nat, body: Bytes, count: nat): seq<Put> {
    if count == 0 then []
    else Refusals(number, body, count - 1) + [Put(number, body, false, PauseBefore(count - 1), Refused)]
  }

  /** None of them was sent after a click on cancel, and each retry after its pause. */
  function PutsOf(effort: Effort): seq<Put> {
    Refusals(effort.number, effort.body, effort.refusals)
    + [Put(effort.number, effort.body, false, PauseBefore(effort.refusals), effort.last)]
  }

  function PutsOfFirst(efforts: seq<Effort>, n: nat): seq<Put>
    requires n <= |efforts|
  {
    if n == 0 then [] else PutsOfFirst(efforts, n - 1) + PutsOf(efforts[n - 1])
  }

  function AllPuts(efforts: seq<Effort>): seq<Put> {
    PutsOfFirst(efforts, |efforts|)
  }

  /** At most three attempts, each with the file's own bytes of the part. */
  predicate AtPart(effort: Effort, number: nat, slices: seq<Bytes>) {
    1 <= number == effort.number <= |slices| && effort.body == slices[number - 1] && effort.refusals <= 2
  }

  /** Parts are attempted in the order of the list, the next one only once storage has confirmed the one before. */
  predicate InTurn(efforts: seq<Effort>, numbers: seq<nat>, slices: seq<Bytes>) {
    && |efforts| <= |numbers|
    && (forall i {:trigger efforts[i]} :: 0 <= i < |efforts| ==> AtPart(efforts[i], numbers[i], slices))
    && (forall i :: 0 <= i < |efforts| - 1 ==> efforts[i].last.Stored?)
  }

  /** What the attempts say of the end: all parts are confirmed when completion is asked for; the upload fails only
      once the same part was refused three times; it is left only in the middle of a PUT; and only a click on cancel
      stops it before that. */
  predicate Tells(efforts: seq<Effort>, numbers: seq<nat>, end: SessionEnd) {
    if efforts == [] then !end.Failed? && !end.Left? && (end.Asked? ==> numbers == [])
    else LastTells(efforts[|efforts| - 1], |efforts| == |numbers|, end)
  }

  predicate LastTells(last: Effort, all: bool, end: SessionEnd) {
    match end
    case Asked(_) => all && last.last.Stored?
    case Failed => last.last.Refused? && last.refusals == 2
    case Left => last.last.Unloaded?
    case Cancelled => last.last.Aborted? || (last.last.Refused? && last.refusals < 2)
    case OtherFile => false
    case WrongFile => false
  }

  lemma {:induction false} RefusalsAreAlike(number: nat, body: Bytes, count: nat)
    ensures |Refusals(number, body, count)| == count
    ensures forall p :: p in Refusals(number, body, count) ==>
              p.number == number && p.body == body && !p.late && p.outcome.Refused?
  {
    if count > 0 {
      RefusalsAreAlike(number, body, count - 1);
    }
  }

  /** Every PUT carries the file's own bytes of a part that was to be sent, no part more than three times. */
  lemma {:induction false} EachPutIsOwn(efforts: seq<Effort>, numbers: seq<nat>, slices: seq<Bytes>, n: nat)
    requires InTurn(efforts, numbers, slices) && n <= |efforts|
    ensures n <= |PutsOfFirst(efforts, n)| <= 3 * n
    ensures forall p :: p in PutsOfFirst(efforts, n) ==>
              p.number in numbers && 1 <= p.number <= |slices| && p.body == slices[p.number - 1] && !p.late
  {
    if n > 0 {
      EachPutIsOwn(efforts, numbers, slices, n - 1);
      var effort := efforts[n - 1];
      assert AtPart(effort, numbers[n - 1], slices);
      RefusalsAreAlike(effort.number, effort.body, effort.refusals);
    }
  }

  lemma {:induction false} TotalGrows(slices: seq<Bytes>, numbers: seq<nat>, i: nat)
    requires i <= |numbers|
    ensures TotalSize(slices, numbers[..i]) <= TotalSize(slices, numbers)
    decreases |numbers| - i
  {
    if i < |numbers| {
      assert numbers[..i + 1][..i] == numbers[..i];
      TotalGrows(slices, numbers, i + 1);
    } else {
      assert numbers[..i] == numbers;
    }
  }

  class Tab {
    // What the outside holds: the parts storage received for the open upload, the PUTs it was sent, and the number of
    // requests to abort the upload.
    var parts: map<nat, Bytes>
    ghost var log: seq<Put>
    ghost var aborts: nat
    ghost var idle: nat  // the milliseconds slept since the last PUT

    // The tag storage gives a part, as its replies and its listings show it.
    const tagOf: Bytes -> string

    var bytesSent: nat
    var cancelRequested: bool
    var cancelHandled: bool

    constructor (tagOf: Bytes -> string)
      ensures this.tagOf == tagOf && parts == map[] && log == [] && aborts == idle == 0 && bytesSent == 0
      ensures !cancelRequested && !cancelHandled
    {
      this.tagOf := tagOf;
      parts, log, aborts, idle, bytesSent, cancelRequested, cancelHandled := map[], [], 0, 0, 0, false, false;
    }

    /** A click on cancel while the upload is shown: the first one asks the server to abort, the others do nothing. */
    method HandleCancelClick()
      requires cancelHandled == cancelRequested
      modifies this`cancelRequested, this`cancelHandled, this`aborts
      ensures cancelHandled && cancelRequested
      ensures aborts == old(aborts) + if old(cancelRequested) then 0 else 1
    {
      if cancelHandled {
        return;
      }
      cancelHandled := true;
      cancelRequested := true;
      aborts := aborts + 1;
    }

    /** Time passes, and the user may click cancel any number of times. */
    method AwaitClicks()
      requires cancelHandled == cancelRequested
      modifies this`cancelRequested, this`cancelHandled, this`aborts
      ensures cancelHandled == cancelRequested && (old(cancelRequested) ==> cancelRequested)
      ensures aborts == old(aborts) + if cancelRequested && !old(cancelRequested) then 1 else 0
    {
      var clicks: nat :| true;
      for i := 0 to clicks
        invariant cancelHandled == cancelRequested && (old(cancelRequested) ==> cancelRequested)
        invariant aborts == old(aborts) + if cancelRequested && !old(cancelRequested) then 1 else 0
      {
        HandleCancelClick();
      }
    }

    /** `sleep(ms)`. */
    method Sleep(ms: nat)
      requires cancelHandled == cancelRequested
      modifies this`cancelRequested, this`cancelHandled, this`aborts, this`idle
      ensures cancelHandled == cancelRequested && (old(cancelRequested) ==> cancelRequested)
      ensures aborts == old(aborts) + if cancelRequested && !old(cancelRequested) then 1 else 0
      ensures idle == old(idle) + ms
    {
      AwaitClicks();
      idle := idle + ms;
    }

    /** One PUT on a signed part URL. The part may have been stored although the reply is lost; the user may click
        cancel, which aborts the transfer, or leave the page. Progress is announced as the body goes out. */
    method PutPart(number: nat, body: Bytes, bytesBeforeThisPart: nat) returns (outcome: PutOutcome)
      requires cancelHandled == cancelRequested
      modifies this
      ensures parts == old(parts) || parts == old(parts)[number := body]
      ensures outcome.Stored? ==> parts == old(parts)[number := body] && outcome.etag == tagOf(body)
      ensures outcome.Aborted? <==> cancelRequested && !old(cancelRequested)
      ensures cancelHandled == cancelRequested && (old(cancelRequested) ==> cancelRequested)
      ensures aborts == old(aborts) + if outcome.Aborted? then 1 else 0
      ensures log == old(log) + [Put(number, body, old(cancelRequested), old(idle), outcome)] && idle == 0
      ensures bytesSent == old(bytesSent) || bytesBeforeThisPart <= bytesSent <= bytesBeforeThisPart + |body|
    {
      var late := cancelRequested;
      var lands, leaves, answered, progressed: bool := *, *, *, *;
      if lands {
        parts := parts[number := body];
      }
      if progressed {
        var loaded: nat :| loaded <= |body|;
        bytesSent := bytesBeforeThisPart + loaded;
      }
      if leaves {
        outcome := Unloaded;
      } else {
        AwaitClicks();
        outcome :=
          if cancelRequested && !late then Aborted else if lands && answered then Stored(tagOf(body)) else Refused;
      }
      log := log + [Put(number, body, late, idle, outcome)];
      idle := 0;
    }

    /** `file.slice(start, start + partSize)`. */
    static method Chunk(file: Bytes, partSize: nat, number: nat, ghost slices: seq<Bytes>) returns (chunk: Bytes)
      requires CutInto(file, partSize, slices) && 1 <= number <= |slices|
      ensures chunk == slices[number - 1]
    {
      var start := PartStart(partSize, number);
      chunk := BlobSlice(file, start, start + partSize);
      assert Slice(file, partSize, number) == slices[number - 1];
    }

    /** The attempts at one part. A refused part is sent again, after a pause, unless the user clicks cancel meanwhile
        or it was refused three times. */
    method SendPart(number: nat, chunk: Bytes, bytesBeforeThisPart: nat, ghost slices: seq<Bytes>)
      returns (outcome: PutOutcome, ghost effort: Effort)
      requires 1 <= number <= |slices| && slices[number - 1] == chunk
      requires !cancelRequested && !cancelHandled && idle == 0
      modifies this
      ensures Wrote(old(parts), parts, slices, [number])
      ensures outcome.Stored? ==> Holds(parts, slices, number) && outcome.etag == tagOf(chunk) && idle == 0
      ensures log == old(log) + PutsOf(effort) && AtPart(effort, number, slices)
      ensures outcome.Stored? || outcome.Unloaded? ==> effort.last == outcome
      ensures outcome.Refused? ==> effort.last.Refused? && effort.refusals == 2
      ensures outcome.Aborted? ==> effort.last.Aborted? || (effort.last.Refused? && effort.refusals < 2)
      ensures cancelRequested == cancelHandled == outcome.Aborted?
      ensures aborts == old(aborts) + if cancelRequested then 1 else 0
      ensures bytesSent == old(bytesSent) || bytesBeforeThisPart <= bytesSent <= bytesBeforeThisPart + |chunk|
    {
      effort := Effort(number, chunk, 0, Refused);
      for attempt := 0 to MAX_PART_ATTEMPTS
        invariant Wrote(old(parts), parts, slices, [number])
        invariant log == old(log) + Refusals(number, chunk, attempt)
        invariant idle == if attempt < MAX_PART_ATTEMPTS then PauseBefore(attempt) else 0
        invariant effort == Effort(number, chunk, if attempt == 0 then 0 else attempt - 1, Refused)
        invariant !cancelRequested && !cancelHandled && aborts == old(aborts)
        invariant bytesSent == old(bytesSent) || bytesBeforeThisPart <= bytesSent <= bytesBeforeThisPart + |chunk|
      {
        outcome := PutPart(number, chunk, bytesBeforeThisPart);
        effort := Effort(number, chunk, attempt, outcome);
        if !outcome.Refused? {
          return;
        }
        if attempt < MAX_PART_ATTEMPTS - 1 {
          Sleep(RETRY_DELAYS_MS[attempt]);
          if cancelRequested {
            outcome := Aborted;
            return;
          }
        }
      }
      outcome := Refused;
    }

    /** The next part of the list, cut and sent. */
    method SendNext(
      file: Bytes, number: nat, partSize: nat, bytesBeforeThisPart: nat, ghost slices: seq<Bytes>,
      ghost numbers: seq<nat>, ghost efforts: seq<Effort>, ghost sent: seq<Part<string>>,
      ghost first: map<nat, Bytes>, ghost sentBefore: seq<Put>)
      returns (outcome: PutOutcome, size: nat, ghost more: seq<Effort>)
      requires CutInto(file, partSize, slices) && AllWithin(numbers, |slices|)
      requires InTurn(efforts, numbers, slices) && |efforts| < |numbers| && number == numbers[|efforts|]
      requires efforts != [] ==> efforts[|efforts| - 1].last.Stored?
      requires |sent| == |efforts| && SentFirst(parts, tagOf, slices, numbers, sent)
      requires Wrote(first, parts, slices, numbers) && log == sentBefore + AllPuts(efforts)
      requires !cancelRequested && !cancelHandled && idle == 0
      modifies this
      ensures Wrote(first, parts, slices, numbers)
      ensures outcome.Stored? ==> SentFirst(parts, tagOf, slices, numbers, sent + [Part(number, outcome.etag)])
      ensures InTurn(more, numbers, slices) && |more| == |efforts| + 1 && log == sentBefore + AllPuts(more)
      ensures outcome.Stored? ==> more[|efforts|].last.Stored? && idle == 0
      ensures !outcome.Stored? ==> Tells(more, numbers, EndOf(Unsent(outcome)))
      ensures TotalSize(slices, numbers[..|more|]) == TotalSize(slices, numbers[..|efforts|]) + size
      ensures TotalSize(slices, numbers[..|more|]) <= TotalSize(slices, numbers)
      ensures cancelRequested == cancelHandled == outcome.Aborted?
      ensures aborts == old(aborts) + if cancelRequested then 1 else 0
      ensures bytesSent == old(bytesSent) || bytesBeforeThisPart <= bytesSent <= bytesBeforeThisPart + size
    {
      var chunk := Chunk(file, partSize, number, slices);
      ghost var effort;
      outcome, effort := SendPart(number, chunk, bytesBeforeThisPart, slices);
      size := |chunk|;
      more := efforts + [effort];
      WroteMore(first, old(parts), parts, slices, numbers, |efforts|);
      TakeTurn(efforts, effort, numbers, slices);
      LogTurn(sentBefore, efforts, effort);
      PartFits(slices, numbers, |efforts|);
      if outcome.Stored? {
        SentOneMore(old(parts), parts, tagOf, slices, numbers, sent);
      }
    }

    /** Sends the listed parts in order. */
    method UploadParts(
      file: Bytes, numbers: seq<nat>, partSize: nat, bytesAlreadySent: nat, ghost slices: seq<Bytes>)
      returns (result: SendResult, ghost efforts: seq<Effort>)
      requires CutInto(file, partSize, slices) && AllWithin(numbers, |slices|)
      requires cancelHandled == cancelRequested && idle == 0
      requires bytesAlreadySent <= bytesSent <= bytesAlreadySent + TotalSize(slices, numbers)
      modifies this
      ensures Wrote(old(parts), parts, slices, numbers)
      ensures log == old(log) + AllPuts(efforts)
      ensures InTurn(efforts, numbers, slices) && Tells(efforts, numbers, EndOf(result))
      ensures result.Sent? ==> SentAll(parts, tagOf, slices, numbers, result.parts)
      ensures result.Sent? && numbers != [] ==> bytesSent == bytesAlreadySent + TotalSize(slices, numbers)
      ensures result.Sent? && numbers == [] ==> bytesSent == old(bytesSent)
      ensures bytesAlreadySent <= bytesSent <= bytesAlreadySent + TotalSize(slices, numbers)
      ensures numbers != [] ==> (result.SendCancelled? <==> cancelRequested)
      ensures numbers == [] ==> result.Sent? && cancelRequested == old(cancelRequested)
      ensures old(cancelRequested) ==> efforts == []
      ensures cancelHandled == cancelRequested
      ensures aborts == old(aborts) + if cancelRequested && !old(cancelRequested) then 1 else 0
    {
      var completedParts: seq<Part<string>> := [];
      var sessionBytesSent := 0;
      efforts := [];
      for i := 0 to |numbers|
        invariant Wrote(old(parts), parts, slices, numbers)
        invariant |completedParts| == i && SentFirst(parts, tagOf, slices, numbers, completedParts)
        invariant sessionBytesSent == TotalSize(slices, numbers[..i]) <= TotalSize(slices, numbers)
        invariant bytesSent == if i > 0 then bytesAlreadySent + sessionBytesSent else old(bytesSent)
        invariant log == old(log) + AllPuts(efforts) && |efforts| == i && InTurn(efforts, numbers, slices)
        invariant efforts != [] ==> efforts[|efforts| - 1].last.Stored?
        invariant cancelHandled == cancelRequested == old(cancelRequested) && aborts == old(aborts)
        invariant idle == 0 && (cancelRequested ==> i == 0)
      {
        if cancelRequested {
          result := SendCancelled;
          return;
        }
        var bytesBeforeThisPart := bytesAlreadySent + sessionBytesSent;
        var outcome, size;
        outcome, size, efforts := SendNext(
          file, numbers[i], partSize, bytesBeforeThisPart, slices, numbers, efforts, completedParts, old(parts),
          old(log));
        if !outcome.Stored? {
          result := Unsent(outcome);
          return;
        }
        completedParts := completedParts + [Part(numbers[i], outcome.etag)];
        sessionBytesSent := sessionBytesSent + size;
        bytesSent := bytesAlreadySent + sessionBytesSent;
      }
      assert numbers[..|numbers|] == numbers;
      result := Sent(completedParts);
    }

    /** A first attempt: all parts, from nothing. `n` is the number of URLs the server signed. */
    method StartFreshUpload(file: Selected, partSize: nat, n: nat, ghost slices: seq<Bytes>)
      returns (end: SessionEnd, ghost efforts: seq<Effort>)
      requires CutInto(file.bytes, partSize, slices) && |slices| == n
      modifies this
      ensures Wrote(old(parts), parts, slices, PartNumbers(n))
      ensures log == old(log) + AllPuts(efforts)
      ensures InTurn(efforts, PartNumbers(n), slices) && Tells(efforts, PartNumbers(n), end)
      ensures end.Asked? ==>
                && SentAll(parts, tagOf, slices, PartNumbers(n), end.parts)
                && bytesSent == TotalSize(slices, PartNumbers(n))
      ensures bytesSent <= TotalSize(slices, PartNumbers(n))
      ensures end.Cancelled? <==> cancelRequested
      ensures aborts == old(aborts) + if end.Cancelled? then 1 else 0
      ensures !end.OtherFile? && !end.WrongFile?
    {
      MissingIsWithin(n, {});
      cancelRequested, cancelHandled := false, false;
      bytesSent := 0;
      idle := 0;
      AwaitClicks();  // the upload is shown, and its resume record is being saved
      var result;
      result, efforts := UploadParts(file.bytes, PartNumbers(n), partSize, 0, slices);
      end := EndOf(result);
      if end.Asked? && cancelRequested {
        end := Cancelled;
      }
    }

    /** The second half of a resume, once the samples have passed: the missing parts and the merged list. */
    method SendMissing(file: Bytes, partSize: nat, n: nat, completed: seq<Part<Listed>>, ghost slices: seq<Bytes>)
      returns (end: SessionEnd, ghost efforts: seq<Effort>)
      requires CutInto(file, partSize, slices) && |slices| == n && completed == ListParts(parts, tagOf, n)
      requires !cancelRequested && !cancelHandled && idle == 0
      modifies this
      ensures Wrote(old(parts), parts, slices, Missing(n, old(parts).Keys))
      ensures log == old(log) + AllPuts(efforts)
      ensures InTurn(efforts, Missing(n, old(parts).Keys), slices) && Tells(efforts, Missing(n, old(parts).Keys), end)
      ensures end.Asked? ==> Merged(old(parts), parts, tagOf, slices, n, end.parts)
      ensures var whole := SumOfSizes(completed) + TotalSize(slices, Missing(n, old(parts).Keys));
              bytesSent <= whole && (end.Asked? ==> bytesSent == whole)
      ensures end.Cancelled? <==> cancelRequested
      ensures aborts == old(aborts) + if end.Cancelled? then 1 else 0
      ensures !end.OtherFile? && !end.WrongFile?
    {
      var missing := Missing(n, parts.Keys);
      MissingIsWithin(n, parts.Keys);
      var bytesAlreadySent := SumOfSizes(completed);
      bytesSent := bytesAlreadySent;
      var result;
      result, efforts := UploadParts(file, missing, partSize, bytesAlreadySent, slices);
      end := EndOf(result);
      if end.Asked? {
        if cancelRequested {
          end := Cancelled;
          return;
        }
        MergedInOrder(old(parts), parts, tagOf, slices, n, end.parts);
        end := Asked(SortParts(Untagged(completed) + end.parts));
      }
    }

    /** Resuming: the listing, the samples, the missing parts, and the merged list. */
    method HandleResumeFile(
      file: Selected, target: Resumable, partSize: nat, n: nat, ghost slices: seq<Bytes>,
      ghost md5: Bytes -> string)
      returns (end: SessionEnd, ghost efforts: seq<Effort>)
      requires CutInto(file.bytes, partSize, slices) && |slices| == n
      requires IsMd5(md5) && TagsAreMd5(md5, tagOf) && forall k :: k in parts ==> 1 <= k <= n
      modifies this
      ensures Wrote(old(parts), parts, slices, Missing(n, old(parts).Keys))
      ensures log == old(log) + AllPuts(efforts)
      ensures InTurn(efforts, Missing(n, old(parts).Keys), slices) && Tells(efforts, Missing(n, old(parts).Keys), end)
      ensures end.OtherFile? <==> !Matches(file, target)
      ensures end.OtherFile? || end.WrongFile? ==> parts == old(parts)
      ensures end.WrongFile? ==> !AllRight(md5, file.bytes, partSize, ListParts(old(parts), tagOf, n))
      ensures end.Asked? ==>
                && Merged(old(parts), parts, tagOf, slices, n, end.parts)
                && bytesSent == SumOfSizes(ListParts(old(parts), tagOf, n))
                                + TotalSize(slices, Missing(n, old(parts).Keys))
      ensures !end.OtherFile? && !end.WrongFile? ==>
                && bytesSent <= SumOfSizes(ListParts(old(parts), tagOf, n))
                                + TotalSize(slices, Missing(n, old(parts).Keys))
                && Sampled(md5, file.bytes, partSize, ListParts(old(parts), tagOf, n))
      ensures !end.OtherFile? ==> (end.Cancelled? <==> cancelRequested)
      ensures aborts == old(aborts) + if end.Cancelled? then 1 else 0
    {
      efforts := [];
      if file.name != target.originalName || |file.bytes| != target.sizeBytes
         || file.lastModified != target.lastModified {
        end := OtherFile;
        return;
      }
      cancelRequested, cancelHandled := false, false;
      idle := 0;
      var completed := ListParts(parts, tagOf, n);
      ListedArePositive(parts, tagOf, n);
      var verified := VerifyCompletedParts(md5, file.bytes, partSize, completed);
      if !verified {
        end := WrongFile;
        return;
      }
      end, efforts := SendMissing(file.bytes, partSize, n, completed, slices);
    }
  }

  /** What was sent is what storage holds: the parts in order, each with the tag of the file's own slice. */
  predicate SentAll(
    parts: map<nat, Bytes>, tagOf: Bytes -> string, slices: seq<Bytes>, numbers: seq<nat>, sent: seq<Part<string>>)
  {
    |sent| == |numbers| && SentFirst(parts, tagOf, slices, numbers, sent)
  }

  predicate SentFirst(
    parts: map<nat, Bytes>, tagOf: Bytes -> string, slices: seq<Bytes>, numbers: seq<nat>, sent: seq<Part<string>>)
  {
    && |sent| <= |numbers|
    && forall i {:trigger sent[i]} :: 0 <= i < |sent| ==>
         Holds(parts, slices, numbers[i]) && sent[i] == Part(numbers[i], tagOf(slices[numbers[i] - 1]))
  }

  lemma WroteMore(
    first: map<nat, Bytes>, before: map<nat, Bytes>, after: map<nat, Bytes>, slices: seq<Bytes>, numbers: seq<nat>,
    i: nat)
    requires i < |numbers|
    requires Wrote(first, before, slices, numbers) && Wrote(before, after, slices, [numbers[i]])
    ensures Wrote(first, after, slices, numbers)
  {}

  lemma TakeTurn(efforts: seq<Effort>, effort: Effort, numbers: seq<nat>, slices: seq<Bytes>)
    requires InTurn(efforts, numbers, slices) && |efforts| < |numbers|
    requires efforts != [] ==> efforts[|efforts| - 1].last.Stored?
    requires AtPart(effort, numbers[|efforts|], slices)
    ensures InTurn(efforts + [effort], numbers, slices)
  {}

  lemma {:induction false} FirstPutsStay(efforts: seq<Effort>, effort: Effort, n: nat)
    requires n <= |efforts|
    ensures PutsOfFirst(efforts + [effort], n) == PutsOfFirst(efforts, n)
  {
    if n > 0 {
      FirstPutsStay(efforts, effort, n - 1);
    }
  }

  lemma LogTurn(first: seq<Put>, efforts: seq<Effort>, effort: Effort)
    ensures first + AllPuts(efforts + [effort]) == first + AllPuts(efforts) + PutsOf(effort)
  {
    FirstPutsStay(efforts, effort, |efforts|);
  }

  lemma PartFits(slices: seq<Bytes>, numbers: seq<nat>, i: nat)
    requires i < |numbers| && 1 <= numbers[i] <= |slices|
    ensures TotalSize(slices, numbers[..i + 1]) == TotalSize(slices, numbers[..i]) + |slices[numbers[i] - 1]|
    ensures TotalSize(slices, numbers[..i + 1]) <= TotalSize(slices, numbers)
  {
    TotalGrows(slices, numbers, i + 1);
    assert numbers[..i + 1][..i] == numbers[..i];
  }

  lemma SentOneMore(
    before: map<nat, Bytes>, after: map<nat, Bytes>, tagOf: Bytes -> string, slices: seq<Bytes>, numbers: seq<nat>,
    sent: seq<Part<string>>)
    requires |sent| < |numbers| && AllWithin(numbers, |slices|)
    requires Wrote(before, after, slices, [numbers[|sent|]]) && Holds(after, slices, numbers[|sent|])
    requires SentFirst(before, tagOf, slices, numbers, sent)
    ensures SentFirst(after, tagOf, slices, numbers,
                      sent + [Part(numbers[|sent|], tagOf(slices[numbers[|sent|] - 1]))])
  {
    var more := sent + [Part(numbers[|sent|], tagOf(slices[numbers[|sent|] - 1]))];
    forall i | 0 <= i < |more|
      ensures Holds(after, slices, numbers[i])
      ensures more[i] == Part(numbers[i], tagOf(slices[numbers[i] - 1]))
    {
      if i < |sent| {
        assert more[i] == sent[i];
      }
    }
  }
}
