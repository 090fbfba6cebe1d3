/** The signature table and the check of the first bytes of an object against its declared extension. */
module MagicBytes {
  import opened Base

  datatype Signature = Signature(offset: nat, bytes: Bytes)

  /** `Throws` is the TypeError of calling `some` on a property the table object inherits from its prototype. */
  datatype Verdict = Match | Unverifiable | Mismatch(expected: string) | Throws

  // The last byte of the ranged read, inclusive.
  const MAGIC_BYTES_RANGE_END: nat := 63

  const PDF: Bytes := [0x25, 0x50, 0x44, 0x46]
  const PNG: Bytes := [0x89, 0x50, 0x4e, 0x47, 0x0d, 0x0a, 0x1a, 0x0a]
  const JPG: Bytes := [0xff, 0xd8, 0xff]
  const GIF: Bytes := [0x47, 0x49, 0x46, 0x38]
  const ZIP: Bytes := [0x50, 0x4b]
  const GZ: Bytes := [0x1f, 0x8b]
  const FTYP: Bytes := [0x66, 0x74, 0x79, 0x70]
  const ID3: Bytes := [0x49, 0x44, 0x33]
  const MPEG: Bytes := [0xff, 0xfb]

  /** The table of known signatures; an empty answer means the extension is not listed. */
  function Signatures(extension: string): seq<Signature> {
    if extension == "pdf" then [Signature(0, PDF)]
    else if extension == "png" then [Signature(0, PNG)]
    else if extension == "jpg" || extension == "jpeg" then [Signature(0, JPG)]
    else if extension == "gif" then [Signature(0, GIF)]
    else if extension == "zip" || extension == "docx" || extension == "xlsx" || extension == "pptx" then
      [Signature(0, ZIP)]
    else if extension == "gz" then [Signature(0, GZ)]
    else if extension == "mp4" then [Signature(4, FTYP)]
    else if extension == "mp3" then [Signature(0, ID3), Signature(0, MPEG)]
    else []
  }

  /** Lower-case property names every plain object inherits: a lookup finds a value that is not a list. */
  predicate Inherited(extension: string) {
    extension == "constructor" || extension == "__proto__"
  }

  const KELVIN_SIGN: char := '\U{212A}'

  /** ASCII letters, and the one other character whose lower case is an ASCII letter. */
  function LowerChar(c: char): char {
    if 'A' <= c <= 'Z' then c - 'A' + 'a' else if c == KELVIN_SIGN then 'k' else c
  }

  function Lower(s: string): (r: string)
    ensures |r| == |s|
  {
    seq(|s|, i requires 0 <= i < |s| => LowerChar(s[i]))
  }

  predicate Matches(head: Bytes, signature: Signature) {
    && signature.offset + |signature.bytes| <= |head|
    && forall i :: 0 <= i < |signature.bytes| ==> head[signature.offset + i] == signature.bytes[i]
  }

  function VerifyMagicBytes(extension: string, head: Bytes): Verdict {
    var lower := Lower(extension);
    if Inherited(lower) then Throws
    else
      var signatures := Signatures(lower);
      if signatures == [] then Unverifiable
      else if exists i :: 0 <= i < |signatures| && Matches(head, signatures[i]) then Match
      else Mismatch(lower)
  }

  /** What a ranged read `bytes=0-63` returns. */
  function Head(body: Bytes): Bytes {
    body[..Min(|body|, MAGIC_BYTES_RANGE_END + 1)]
  }

  /** The object's own bytes contradict the extension. */
  predicate Contradicts(extension: string, body: Bytes) {
    VerifyMagicBytes(extension, body).Mismatch?
  }

  /** One signature cannot tell the first 64 bytes from the whole body, because it ends before byte 64. */
  lemma HeadDecidesSignature(body: Bytes, signature: Signature)
    requires signature.offset + |signature.bytes| <= MAGIC_BYTES_RANGE_END + 1
    ensures Matches(Head(body), signature) == Matches(body, signature)
  {
    assert forall j :: 0 <= j < |Head(body)| ==> Head(body)[j] == body[j];
  }

  lemma SignaturesFitInRange(extension: string, i: nat)
    requires i < |Signatures(extension)|
    ensures Signatures(extension)[i].offset + |Signatures(extension)[i].bytes| <= MAGIC_BYTES_RANGE_END + 1
  {}

  /** The 64-byte range read gives the verdict a full read would give, for every extension and object. */
  lemma RangedReadSuffices(extension: string, body: Bytes)
    ensures VerifyMagicBytes(extension, Head(body)) == VerifyMagicBytes(extension, body)
  {
    var signatures := Signatures(Lower(extension));
    forall i | 0 <= i < |signatures|
      ensures Matches(Head(body), signatures[i]) == Matches(body, signatures[i])
    {
      SignaturesFitInRange(Lower(extension), i);
      HeadDecidesSignature(body, signatures[i]);
    }
  }

  /** A signature is found exactly where the table puts it. */
  lemma MatchIsAtOffset(head: Bytes, signature: Signature)
    ensures Matches(head, signature) <==>
            exists before: Bytes, after: Bytes ::
              |before| == signature.offset && head == before + signature.bytes + after
  {
    if Matches(head, signature) {
      var at, end := signature.offset, signature.offset + |signature.bytes|;
      assert head[at..end] == signature.bytes;
      assert head == head[..at] + signature.bytes + head[end..];
    }
    if before: Bytes, after: Bytes :| |before| == signature.offset && head == before + signature.bytes + after {
      assert forall i :: 0 <= i < |signature.bytes| ==> head[signature.offset + i] == signature.bytes[i];
    }
  }

  /** The four verdicts: an unlisted extension cannot be verified, a listed one matches if any of its signatures does,
      and a refusal names the extension. */
  lemma VerdictIsExact(extension: string, body: Bytes)
    ensures var lower, verdict := Lower(extension), VerifyMagicBytes(extension, body);
            && (verdict.Throws? <==> lower == "constructor" || lower == "__proto__")
            && (verdict.Unverifiable? <==> !verdict.Throws? && Signatures(lower) == [])
            && (verdict.Match? <==>
                  exists i :: 0 <= i < |Signatures(lower)| && Matches(body, Signatures(lower)[i]))
            && (verdict.Mismatch? ==> verdict.expected == lower)
  {
    if Inherited(Lower(extension)) {
      assert |"constructor"| == 11 && |"__proto__"| == 9;
    }
  }

  /** A refusal needs a listed extension every one of whose signatures the object contradicts; an unlisted
      extension is never refused, and exactly two unlisted ones are not answered at all. */
  lemma RefusalIsAContradiction(extension: string, body: Bytes)
    ensures Contradicts(extension, body) <==>
            && Signatures(Lower(extension)) != []
            && forall i :: 0 <= i < |Signatures(Lower(extension))| ==>
                 !Matches(body, Signatures(Lower(extension))[i])
    ensures VerifyMagicBytes(extension, body).Throws? <==>
            Lower(extension) in {"constructor", "__proto__"}
  {
    assert Inherited(Lower(extension)) ==> Signatures(Lower(extension)) == [] by {
      if Inherited(Lower(extension)) {
        assert |"constructor"| == 11 && |"__proto__"| == 9;
      }
    }
  }

  // ---- lower-casing ----

  function UpperChar(c: char): char {
    if 'a' <= c <= 'z' then c - 'a' + 'A' else c
  }

  /** Letters in capitals do not hide an extension. */
  lemma CapitalsChangeNothing(s: string)
    requires forall i :: 0 <= i < |s| ==> !('A' <= s[i] <= 'Z') && s[i] != KELVIN_SIGN
    ensures Lower(seq(|s|, i requires 0 <= i < |s| => UpperChar(s[i]))) == s
  {}

  lemma LowerIsLower(s: string)
    ensures Lower(Lower(s)) == Lower(s)
  {}

  predicate Ascii(s: string) {
    forall i :: 0 <= i < |s| ==> s[i] as int < 128
  }

  /** What is known of `toLowerCase`: it is `Lower` where the lower case is ASCII, and otherwise leaves another
      character. */
  predicate IsLowerCaseOf(lowered: string, s: string) {
    if Ascii(Lower(s)) then lowered == Lower(s) else !Ascii(lowered)
  }

  /** The table, and the names that throw, are found alike by `Lower` and by `toLowerCase`. */
  lemma LowerFindsTheSame(lowered: string, s: string)
    requires IsLowerCaseOf(lowered, s)
    ensures Signatures(lowered) == Signatures(Lower(s)) && (Inherited(lowered) <==> Inherited(Lower(s)))
  {
    if !Ascii(Lower(s)) {
      OnlyAsciiIsListed(lowered);
      OnlyAsciiIsListed(Lower(s));
    }
  }

  lemma OnlyAsciiIsListed(extension: string)
    requires !Ascii(extension)
    ensures Signatures(extension) == [] && !Inherited(extension)
  {}
}
