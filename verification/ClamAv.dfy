/** The antivirus client: the framing of a stream, and the reading of the reply. */
module ClamAv {
  import opened Base

  const INSTREAM_CHUNK_SIZE: nat := 64 * 1024

  // ---- framing ----

  /** `writeUInt32BE`. */
  function BigEndian(n: nat): (b: Bytes)
    requires n < 0x1_0000_0000
    ensures |b| == 4
  {
    [(n / 0x100_0000) as Byte, (n / 0x1_0000 % 256) as Byte, (n / 256 % 256) as Byte, (n % 256) as Byte]
  }

  /** What the daemon reads back from a length prefix. */
  function LengthOf(stream: Bytes): nat
    requires |stream| >= 4
  {
    0x100_0000 * stream[0] as int + 0x1_0000 * stream[1] as int + 0x100 * stream[2] as int + stream[3] as int
  }

  lemma PrefixRoundTrip(n: nat, rest: Bytes)
    requires n < 0x1_0000_0000
    ensures LengthOf(BigEndian(n) + rest) == n
  {
    var n1, n2, n3 := n / 256, n / 0x1_0000, n / 0x100_0000;
    assert n1 / 256 == n2 && n2 / 256 == n3;
  }

  function Frame(body: Bytes): Bytes
    requires |body| < 0x1_0000_0000
  {
    BigEndian(|body|) + body
  }

  /** A buffer as frames of at most 64 KiB, closed by an empty frame. */
  function Framed(buffer: Bytes): Bytes {
    if buffer == [] then Frame([])
    else
      var size := Min(|buffer|, INSTREAM_CHUNK_SIZE);
      Frame(buffer[..size]) + Framed(buffer[size..])
  }

  /** The daemon: frames up to the first empty one, with which the stream must end. */
  function Unframed(stream: Bytes): Option<Bytes> {
    if |stream| < 4 then None
    else
      var size := LengthOf(stream);
      if size == 0 then (if |stream| == 4 then Some([]) else None)
      else if |stream| < 4 + size then None
      else
        var rest := Unframed(stream[4 + size..]);
        if rest.None? then None else Some(stream[4..4 + size] + rest.value)
  }

  /** The length prefixes of a stream, in order. */
  function Lengths(stream: Bytes): seq<nat> {
    if |stream| < 4 then []
    else
      var size := LengthOf(stream);
      if |stream| < 4 + size then [size] else [size] + Lengths(stream[4 + size..])
  }

  lemma FirstFrame(body: Bytes, rest: Bytes)
    requires |body| < 0x1_0000_0000
    ensures var stream := Frame(body) + rest;
            && |stream| == 4 + |body| + |rest| && LengthOf(stream) == |body|
            && stream[4..4 + |body|] == body && stream[4 + |body|..] == rest
  {
    PrefixRoundTrip(|body|, body + rest);
    assert Frame(body) + rest == BigEndian(|body|) + (body + rest);
  }

  lemma FirstOfFramed(left: Bytes, size: nat)
    requires left != [] && size == Min(|left|, INSTREAM_CHUNK_SIZE)
    ensures Framed(left) == Frame(left[..size]) + Framed(left[size..])
  {}

  lemma UnframedAfterFrame(body: Bytes, rest: Bytes)
    requires 0 < |body| < 0x1_0000_0000
    ensures Unframed(Frame(body) + rest) == if Unframed(rest).None? then None else Some(body + Unframed(rest).value)
  {
    FirstFrame(body, rest);
  }

  /** The daemon recovers every buffer exactly. */
  lemma {:induction false} FramingRoundTrip(buffer: Bytes)
    ensures Unframed(Framed(buffer)) == Some(buffer)
  {
    if buffer == [] {
      FirstFrame([], []);
      assert Frame([]) + [] == Framed(buffer);
    } else {
      var size := Min(|buffer|, INSTREAM_CHUNK_SIZE);
      FirstOfFramed(buffer, size);
      FramingRoundTrip(buffer[size..]);
      UnframedAfterFrame(buffer[..size], Framed(buffer[size..]));
      assert buffer[..size] + buffer[size..] == buffer;
    }
  }

  /** Every data frame is full but the last, which has 1 to 65536 bytes; then one empty frame closes the stream. */
  lemma {:induction false} FrameSizes(buffer: Bytes)
    ensures var lengths := Lengths(Framed(buffer));
            && |lengths| >= 1 && lengths[|lengths| - 1] == 0
            && (forall i :: 0 <= i < |lengths| - 1 ==> 1 <= lengths[i] <= 65536)
            && (forall i :: 0 <= i < |lengths| - 2 ==> lengths[i] == 65536)
    ensures |buffer| > 0 ==> |Lengths(Framed(buffer))| >= 2
  {
    if buffer == [] {
      FirstFrame([], []);
      assert Frame([]) + [] == Framed(buffer);
    } else {
      var size := Min(|buffer|, INSTREAM_CHUNK_SIZE);
      FirstOfFramed(buffer, size);
      FirstFrame(buffer[..size], Framed(buffer[size..]));
      FrameSizes(buffer[size..]);
      var lengths, rest := Lengths(Framed(buffer)), Lengths(Framed(buffer[size..]));
      assert lengths == [size] + rest;
      if size == |buffer| {
        EmptyHasOneFrame(buffer[size..]);
      }
    }
  }

  lemma EmptyHasOneFrame(buffer: Bytes)
    requires buffer == []
    ensures |Lengths(Framed(buffer))| == 1
  {
    FirstFrame([], []);
    assert Frame([]) + [] == Framed(buffer);
    assert Framed(buffer)[4..] == [];
  }

  /** `zINSTREAM\0`. */
  const COMMAND: Bytes := [0x7a, 0x49, 0x4e, 0x53, 0x54, 0x52, 0x45, 0x41, 0x4d, 0x00]

  /** What is written to the socket once connected. */
  method Instream(buffer: array<Byte>) returns (written: Bytes)
    ensures written == COMMAND + Framed(buffer[..])
    ensures Unframed(written[|COMMAND|..]) == Some(buffer[..])
  {
    written := COMMAND;
    var offset := 0;
    while offset < buffer.Length
      invariant 0 <= offset
      invariant written + Framed(buffer[Min(offset, buffer.Length)..]) == COMMAND + Framed(buffer[..])
      decreases buffer.Length - offset
    {
      var slice := buffer[offset..Min(offset + INSTREAM_CHUNK_SIZE, buffer.Length)];
      var header := BigEndian(|slice|);
      NextChunk(written, buffer[offset..], header, slice);
      assert buffer[offset..][|slice|..] == buffer[Min(offset + INSTREAM_CHUNK_SIZE, buffer.Length)..];
      written := written + header;
      written := written + slice;
      offset := offset + INSTREAM_CHUNK_SIZE;
    }
    var terminator := BigEndian(0);
    written := written + terminator;
    assert Framed([]) == terminator + [];
    FramingRoundTrip(buffer[..]);
  }

  lemma NextChunk(written: Bytes, left: Bytes, header: Bytes, slice: Bytes)
    requires left != [] && slice == left[..Min(|left|, INSTREAM_CHUNK_SIZE)]
    requires Frame(slice) == header + slice
    ensures written + Framed(left) == written + header + slice + Framed(left[|slice|..])
  {
    FirstOfFramed(left, |slice|);
    Reassociate(written, header, slice, Framed(left[|slice|..]));
  }

  lemma Reassociate(a: Bytes, b: Bytes, c: Bytes, d: Bytes)
    ensures a + (b + c + d) == a + b + c + d
  {}

  // ---- the reply ----

  datatype ScanVerdict = CleanReply | InfectedReply(signature: string) | Unexpected(reply: string)

  /** White space, for `trim` and for `\s`. */
  predicate IsSpace(c: char) {
    var n := c as int;
    || 9 <= n <= 13 || n == 32 || n == 0xa0 || n == 0x1680 || 0x2000 <= n <= 0x200a || n == 0x2028 || n == 0x2029
    || n == 0x202f || n == 0x205f || n == 0x3000 || n == 0xfeff
  }

  function DropNul(s: string): string {
    if s == "" then "" else (if s[0] == '\0' then "" else [s[0]]) + DropNul(s[1..])
  }

  function TrimStart(s: string): string {
    if s == "" || !IsSpace(s[0]) then s else TrimStart(s[1..])
  }

  function TrimEnd(s: string): string {
    if s == "" || !IsSpace(s[|s| - 1]) then s else TrimEnd(s[..|s| - 1])
  }

  function Trim(s: string): string {
    TrimEnd(TrimStart(s))
  }

  predicate EndsWith(s: string, suffix: string) {
    |suffix| <= |s| && s[|s| - |suffix|..] == suffix
  }

  predicate StartsWith(s: string, prefix: string) {
    |prefix| <= |s| && s[..|prefix|] == prefix
  }

  predicate StandsAt(s: string, i: int, word: string) {
    0 <= i <= |s| - |word| && s[i..i + |word|] == word
  }

  predicate Includes(s: string, word: string) {
    exists i :: 0 <= i <= |s| && StandsAt(s, i, word)
  }

  // Drops a leading `stream:` and the white space behind it.
  function WithoutStream(s: string): string {
    if StartsWith(s, "stream:") then TrimStart(s[7..]) else s
  }

  // Drops a final `FOUND` and the white space before it.
  function WithoutFound(s: string): string {
    if EndsWith(s, "FOUND") then TrimEnd(s[..|s| - 5]) else s
  }

  function ReadReply(response: string): ScanVerdict {
    var trimmed := Trim(DropNul(response));
    if EndsWith(trimmed, "OK") && !Includes(trimmed, "FOUND") then CleanReply
    else if Includes(trimmed, "FOUND") then InfectedReply(WithoutFound(WithoutStream(trimmed)))
    else Unexpected(trimmed)
  }

  /** A name the daemon may report: no NUL, no white space at either end. */
  predicate Reportable(signature: string) {
    && '\0' !in signature
    && (signature != "" ==> !IsSpace(signature[0]) && !IsSpace(signature[|signature| - 1]))
  }

  lemma {:induction false} NoNulToDrop(s: string)
    requires '\0' !in s
    ensures DropNul(s) == s
  {
    if s != "" {
      NoNulToDrop(s[1..]);
    }
  }

  lemma {:induction false} DropNulOfConcat(s: string, t: string)
    ensures DropNul(s + t) == DropNul(s) + DropNul(t)
  {
    if s == "" {
      assert s + t == t;
    } else {
      assert (s + t)[0] == s[0] && (s + t)[1..] == s[1..] + t;
      DropNulOfConcat(s[1..], t);
    }
  }

  /** The daemon terminates its reply by a NUL, which is dropped. */
  lemma NulIsDropped(reply: string)
    requires '\0' !in reply
    ensures DropNul(reply + "\0") == reply
  {
    NoNulToDrop(reply);
    DropNulOfConcat(reply, "\0");
  }

  lemma NothingToTrim(s: string)
    requires s != "" && !IsSpace(s[0]) && !IsSpace(s[|s| - 1])
    ensures Trim(s) == s
  {}

  predicate AllSpace(s: string) {
    forall i :: 0 <= i < |s| ==> IsSpace(s[i])
  }

  /** `text` between white space, without white space at its ends. */
  predicate Padded(s: string, before: string, text: string, after: string) {
    && s == before + text + after && AllSpace(before) && AllSpace(after)
    && (text != "" ==> !IsSpace(text[0]) && !IsSpace(text[|text| - 1]))
  }

  lemma {:induction false} TrimStartDrops(before: string, s: string)
    requires AllSpace(before)
    ensures TrimStart(before + s) == TrimStart(s)
  {
    if before == "" {
      assert before + s == s;
    } else {
      assert (before + s)[0] == before[0] && (before + s)[1..] == before[1..] + s;
      TrimStartDrops(before[1..], s);
    }
  }

  lemma {:induction false} TrimEndDrops(s: string, after: string)
    requires AllSpace(after)
    ensures TrimEnd(s + after) == TrimEnd(s)
    decreases |after|
  {
    if after == "" {
      assert s + after == s;
    } else {
      var last := |after| - 1;
      assert (s + after)[|s| + last] == after[last] && (s + after)[..|s| + last] == s + after[..last];
      TrimEndDrops(s, after[..last]);
    }
  }

  /** Trimming finds the text, and nothing but the text. */
  lemma TrimFindsText(s: string, before: string, text: string, after: string)
    requires Padded(s, before, text, after) && text != ""
    ensures Trim(s) == text
  {
    assert s == before + (text + after);
    TrimStartDrops(before, text + after);
    assert (text + after)[0] == text[0];
    TrimEndDrops(text, after);
  }

  lemma {:induction false} SplitStart(s: string) returns (before: string)
    ensures s == before + TrimStart(s) && AllSpace(before)
    ensures TrimStart(s) != "" ==> !IsSpace(TrimStart(s)[0])
  {
    if s == "" || !IsSpace(s[0]) {
      before := "";
    } else {
      var more := SplitStart(s[1..]);
      before := [s[0]] + more;
      assert s == [s[0]] + s[1..];
    }
  }

  lemma {:induction false} SplitEnd(s: string) returns (after: string)
    ensures s == TrimEnd(s) + after && AllSpace(after)
    ensures TrimEnd(s) != "" ==> TrimEnd(s)[0] == s[0] && !IsSpace(TrimEnd(s)[|TrimEnd(s)| - 1])
    decreases |s|
  {
    if s == "" || !IsSpace(s[|s| - 1]) {
      after := "";
    } else {
      var last := |s| - 1;
      var more := SplitEnd(s[..last]);
      after := more + [s[last]];
      assert s == s[..last] + [s[last]];
    }
  }

  lemma TrimDrops(s: string) returns (before: string, after: string)
    ensures Padded(s, before, Trim(s), after)
  {
    before := SplitStart(s);
    after := SplitEnd(TrimStart(s));
    assert s == before + (Trim(s) + after);
  }

  /** A reply is read as clean if, without its NULs, it is white space around a text that ends with OK and does not
      mention FOUND: bare, as `stream: OK`, or however padded. */
  lemma CleanReplyIsRead(response: string, before: string, text: string, after: string)
    requires Padded(DropNul(response), before, text, after) && EndsWith(text, "OK") && !Includes(text, "FOUND")
    ensures ReadReply(response).CleanReply?
  {
    TrimFindsText(DropNul(response), before, text, after);
  }

  /** And no other reply is. */
  lemma OnlyOkIsClean(response: string) returns (before: string, text: string, after: string)
    requires ReadReply(response).CleanReply?
    ensures Padded(DropNul(response), before, text, after) && EndsWith(text, "OK") && !Includes(text, "FOUND")
  {
    text := Trim(DropNul(response));
    before, after := TrimDrops(DropNul(response));
  }

  lemma StreamGoes(t: string)
    ensures WithoutStream("stream: " + t) == TrimStart(t)
  {
    var s := "stream: " + t;
    assert s[..7] == "stream:";
    assert s[7..] == " " + t && (" " + t)[1..] == t;
  }

  lemma FoundGoes(t: string)
    ensures WithoutFound(t + " FOUND") == TrimEnd(t)
  {
    var s := t + " FOUND";
    assert s[|s| - 5..] == "FOUND";
    assert s[..|s| - 5] == t + " ";
    assert (t + " ")[..|t|] == t;
  }

  lemma ReportIsRead(signature: string)
    requires Reportable(signature)
    ensures WithoutFound(WithoutStream("stream: " + (signature + " FOUND"))) == signature
  {
    StreamGoes(signature + " FOUND");
    if signature == "" {
      assert "" + " FOUND" == " FOUND";
      assert " FOUND"[1..] == "FOUND";
      assert "FOUND"[..0] == "";
    } else {
      FoundGoes(signature);
    }
  }

  /** A reported signature comes back exactly, also when the word FOUND is part of it. */
  lemma SignatureRoundTrip(signature: string)
    requires Reportable(signature)
    ensures ReadReply("stream: " + (signature + " FOUND") + "\0") == InfectedReply(signature)
  {
    var reply := "stream: " + (signature + " FOUND");
    NulIsDropped(reply);
    assert reply[0] == 's' && reply[|reply| - 1] == 'D';
    NothingToTrim(reply);
    assert StandsAt(reply, |reply| - 5, "FOUND");
    ReportIsRead(signature);
  }

  /** A reply that mentions FOUND anywhere is read as an infection, never as clean and never as an error. */
  lemma FoundIsInfected(before: string, after: string)
    ensures ReadReply(before + "FOUND" + after).InfectedReply?
  {
    FoundSurvives(before, after);
  }

  lemma FoundIsNotDropped(before: string, after: string)
    ensures DropNul(before + "FOUND" + after) == DropNul(before) + "FOUND" + DropNul(after)
  {
    DropNulOfConcat(before + "FOUND", after);
    DropNulOfConcat(before, "FOUND");
    NoNulToDrop("FOUND");
  }

  lemma FoundSurvives(before: string, after: string)
    ensures Includes(Trim(DropNul(before + "FOUND" + after)), "FOUND")
  {
    FoundIsNotDropped(before, after);
    FoundOutlastsTrim(DropNul(before), DropNul(after));
  }

  lemma FoundOutlastsTrim(x: string, y: string)
    ensures Includes(Trim(x + "FOUND" + y), "FOUND")
  {
    TrimStartKeepsFound(x, y);
    TrimEndKeepsFound(TrimStart(x), y);
    var t := TrimStart(x) + "FOUND" + TrimEnd(y);
    assert StandsAt(t, |TrimStart(x)|, "FOUND");
  }

  lemma {:induction false} TrimStartKeepsFound(x: string, y: string)
    ensures TrimStart(x + "FOUND" + y) == TrimStart(x) + "FOUND" + y
  {
    if x == "" {
      assert ("" + "FOUND" + y)[0] == 'F';
    } else if IsSpace(x[0]) {
      assert (x + "FOUND" + y)[1..] == x[1..] + "FOUND" + y;
      TrimStartKeepsFound(x[1..], y);
    }
  }

  lemma {:induction false} TrimEndKeepsFound(x: string, y: string)
    ensures TrimEnd(x + "FOUND" + y) == x + "FOUND" + TrimEnd(y)
    decreases |y|
  {
    var s := x + "FOUND" + y;
    if y == "" {
      assert s[|s| - 1] == 'D';
    } else if IsSpace(y[|y| - 1]) {
      assert s[..|s| - 1] == x + "FOUND" + y[..|y| - 1];
      TrimEndKeepsFound(x, y[..|y| - 1]);
    }
  }

  // ---- every reply ----

  /** A word in a text is a word in whatever holds the text. */
  lemma IncludedInWhole(before: string, text: string, after: string, word: string)
    requires Includes(text, word)
    ensures Includes(before + text + after, word)
  {
    var i :| 0 <= i <= |text| && StandsAt(text, i, word);
    var whole := before + text + after;
    assert whole[|before| + i..|before| + i + |word|] == text[i..i + |word|];
    assert StandsAt(whole, |before| + i, word);
  }

  lemma TrimIsWithin(s: string)
    requires Includes(Trim(s), "FOUND")
    ensures Includes(s, "FOUND")
  {
    var before, after := TrimDrops(s);
    IncludedInWhole(before, Trim(s), after, "FOUND");
  }

  lemma SplitAtFound(s: string) returns (x: string, y: string)
    requires Includes(s, "FOUND")
    ensures s == x + "FOUND" + y
  {
    var i :| 0 <= i <= |s| && StandsAt(s, i, "FOUND");
    x, y := s[..i], s[i + 5..];
    assert s == s[..i] + s[i..i + 5] + s[i + 5..];
  }

  lemma TrimKeepsFound(s: string)
    requires Includes(s, "FOUND")
    ensures Includes(Trim(s), "FOUND")
  {
    var x, y := SplitAtFound(s);
    FoundOutlastsTrim(x, y);
  }

  /** A reply is read as an infection exactly when, without its NULs, it mentions FOUND; together with the two lemmas on
      clean replies this leaves every other one, as an error of the daemon, to be thrown. */
  lemma InfectionIsExact(response: string)
    ensures ReadReply(response).InfectedReply? <==> Includes(DropNul(response), "FOUND")
    ensures ReadReply(response).Unexpected? <==>
            !Includes(DropNul(response), "FOUND") && !EndsWith(Trim(DropNul(response)), "OK")
  {
    var s := DropNul(response);
    if Includes(s, "FOUND") {
      TrimKeepsFound(s);
    } else if Includes(Trim(s), "FOUND") {
      TrimIsWithin(s);
    }
  }

  // What `WithoutStream` drops.
  lemma StreamDropped(text: string) returns (lead: string)
    ensures text == lead + WithoutStream(text)
    ensures if StartsWith(text, "stream:") then StartsWith(lead, "stream:") && AllSpace(lead[7..]) else lead == ""
    ensures StartsWith(text, "stream:") && WithoutStream(text) != "" ==> !IsSpace(WithoutStream(text)[0])
  {
    lead := "";
    if StartsWith(text, "stream:") {
      var space := SplitStart(text[7..]);
      lead := text[..7] + space;
      assert lead[..7] == text[..7] && lead[7..] == space;
      assert text == text[..7] + text[7..];
    } else {
      assert text == "" + text;
    }
  }

  // What `WithoutFound` drops.
  lemma FoundDropped(rest: string) returns (tail: string)
    ensures rest == WithoutFound(rest) + tail
    ensures if EndsWith(rest, "FOUND") then EndsWith(tail, "FOUND") && AllSpace(tail[..|tail| - 5]) else tail == ""
    ensures EndsWith(rest, "FOUND") && WithoutFound(rest) != "" ==>
              !IsSpace(WithoutFound(rest)[|WithoutFound(rest)| - 1])
  {
    tail := "";
    if EndsWith(rest, "FOUND") {
      var n := |rest| - 5;
      var space := SplitEnd(rest[..n]);
      tail := space + rest[n..];
      assert tail[..|tail| - 5] == space && tail[|tail| - 5..] == rest[n..];
      assert rest == rest[..n] + rest[n..];
    } else {
      assert rest == rest + "";
    }
  }

  /** The signature of any infection: the trimmed text between a leading `stream:` and a final `FOUND`, each dropped
      with the white space next to it, and each only if it stands there. */
  lemma SignatureIsBetween(response: string, text: string) returns (lead: string, tail: string)
    requires ReadReply(response).InfectedReply? && text == Trim(DropNul(response))
    ensures text == lead + (ReadReply(response).signature + tail)
    ensures if StartsWith(text, "stream:") then StartsWith(lead, "stream:") && AllSpace(lead[7..]) else lead == ""
    ensures var kept := ReadReply(response).signature;
            if EndsWith(kept + tail, "FOUND") then
              && EndsWith(tail, "FOUND") && AllSpace(tail[..|tail| - 5])
              && (kept != "" ==> !IsSpace(kept[|kept| - 1]))
            else tail == ""
    ensures var rest := ReadReply(response).signature + tail;
            StartsWith(text, "stream:") && rest != "" ==> !IsSpace(rest[0])
  {
    lead := StreamDropped(text);
    tail := FoundDropped(WithoutStream(text));
  }
}
