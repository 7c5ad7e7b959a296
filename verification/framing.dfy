/** Framing: a record is `$<payload>*<HH>\r\n`. `Encode` wraps a payload in a frame and turns it
    into bytes; `VerifyChecksum` matches the frame grammar `^\$(.+)\*([0-9A-F]{2})\r\n$` and compares
    the two digits it carries with the checksum of the payload. */
module Framing {
  import opened Outcomes
  import opened Text
  import opened Checksums

  /** The two groups the frame grammar captures: the payload and the checksum digits. */
  datatype Frame = Frame(payload: string, checksum: string)

  /** What the groups `(.+)` and `([0-9A-F]{2})` admit: `.` matches every character but a newline. */
  predicate WellFormed(f: Frame) {
    |f.payload| > 0 && '\n' !in f.payload
    && |f.checksum| == 2 && IsHexDigit(f.checksum[0]) && IsHexDigit(f.checksum[1])
  }

  function Render(f: Frame): string {
    "$" + f.payload + "*" + f.checksum + "\r\n"
  }

  /** `re.search(r'^\$(.+)\*([0-9A-F]{2})\r\n$', s)`. The closing `$` matches at the end of the
      text and also just before a newline that ends it, so one extra trailing "\n" is accepted. */
  function MatchFrame(s: string): (r: Option<Frame>)
    ensures r.Some? ==> WellFormed(r.value) && (s == Render(r.value) || s == Render(r.value) + "\n")
  {
    var n := |s|;
    if n >= 3 && s[n - 3..] == "\r\n\n" then
      var r := MatchHead(s[..n - 3]);
      assert r.Some? ==> s == s[..n - 3] + "\r\n\n";
      r
    else if n >= 2 && s[n - 2..] == "\r\n" then
      var r := MatchHead(s[..n - 2]);
      assert r.Some? ==> s == s[..n - 2] + "\r\n";
      r
    else None
  }

  /** `\$(.+)\*([0-9A-F]{2})` against the record without its line ending. */
  function MatchHead(t: string): (r: Option<Frame>)
    ensures r.Some? ==> WellFormed(r.value) && t == "$" + r.value.payload + "*" + r.value.checksum
  {
    var n := |t|;
    if n >= 5 && t[0] == '$' && t[n - 3] == '*' && IsHexDigit(t[n - 2]) && IsHexDigit(t[n - 1])
       && '\n' !in t[1..n - 3]
    then
      assert t == "$" + t[1..n - 3] + "*" + t[n - 2..];
      Some(Frame(t[1..n - 3], t[n - 2..]))
    else None
  }

  /** Every text the grammar describes is matched, and the groups come back unchanged. */
  lemma MatchFrameComplete(f: Frame)
    requires WellFormed(f)
    ensures MatchFrame(Render(f)) == Some(f)
    ensures MatchFrame(Render(f) + "\n") == Some(f)
  {
    var head := "$" + f.payload + "*" + f.checksum;
    var s := Render(f);
    assert s == head + "\r\n";
    assert s[|s| - 2..] == "\r\n";
    assert s[|s| - 2] == '\r';
    assert s[..|s| - 2] == head;
    MatchHeadComplete(f);
    var s' := s + "\n";
    assert s' == head + "\r\n\n";
    assert s'[|s'| - 3..] == "\r\n\n";
    assert s'[..|s'| - 3] == head;
  }

  lemma MatchHeadComplete(f: Frame)
    requires WellFormed(f)
    ensures MatchHead("$" + f.payload + "*" + f.checksum) == Some(f)
  {
    var t := "$" + f.payload + "*" + f.checksum;
    var n := |t|;
    assert t[1..n - 3] == f.payload;
    assert t[n - 2..] == f.checksum;
  }

  /** `'${}*{}\r\n'.format(data, get_checksum(data))`. */
  function FrameText(data: string): string {
    Render(Frame(data, Checksum(data)))
  }

  /** `encode`: the frame of a payload as UTF-8 bytes; an ASCII payload gives one byte per character. */
  function Encode(data: string): (bytes: seq<Byte>)
    ensures IsAscii(data) ==> |bytes| == |data| + 6
    ensures IsAscii(data) ==> forall i :: 0 <= i < |bytes| ==> bytes[i] == FrameText(data)[i] as int
  {
    // Both branches encode the same way; the first only brings in the facts about ASCII frames.
    if IsAscii(data) then
      FrameTextAscii(data);
      Utf8(FrameText(data))
    else Utf8(FrameText(data))
  }

  lemma FrameTextAscii(data: string)
    requires IsAscii(data)
    ensures IsAscii(FrameText(data)) && |FrameText(data)| == |data| + 6
  {
    XorAllAscii(data);
    var cs := Checksum(data);
    assert |cs| == 2 && IsHexDigit(cs[0]) && IsHexDigit(cs[1]);
    AsciiConcat("$", data);
    AsciiConcat("$" + data, "*");
    AsciiConcat("$" + data + "*", cs);
    AsciiConcat("$" + data + "*" + cs, "\r\n");
  }

  /** Bytes below 0x80 read back as text: what UTF-8 decoding gives for ASCII bytes. */
  function AsciiText(bytes: seq<Byte>): (s: string)
    requires forall i :: 0 <= i < |bytes| ==> bytes[i] < 0x80
    ensures |s| == |bytes| && forall i :: 0 <= i < |s| ==> s[i] as int == bytes[i]
  {
    seq(|bytes|, i requires 0 <= i < |bytes| => bytes[i] as char)
  }

  /** `verify_checksum`: None of the grammar is an error (`m.group` on a failed search); otherwise
      whether the carried digits equal the recomputed checksum of the payload. */
  function VerifyChecksum(s: string): (r: Result<bool>)
    ensures r.Err? <==> MatchFrame(s).None?
    ensures r.Err? ==> r.error == NoFrame
  {
    match MatchFrame(s)
    case None => Err(NoFrame)
    case Some(f) => Ok(Checksum(f.payload) == f.checksum)
  }

  /** A payload that can travel in a frame: non-empty, no newline, and a checksum of two digits. */
  predicate Sendable(data: string) {
    |data| > 0 && '\n' !in data && XorAll(data) as int < 0x100
  }

  /** Every non-empty ASCII payload without a newline is sendable. */
  lemma AsciiSendable(data: string)
    requires |data| > 0 && '\n' !in data && IsAscii(data)
    ensures Sendable(data)
  {
    XorAllAscii(data);
  }

  /** Round trip: the frame of a sendable payload verifies, and the grammar captures that payload. */
  lemma VerifyFrameText(data: string)
    requires Sendable(data)
    ensures MatchFrame(FrameText(data)) == Some(Frame(data, Checksum(data)))
    ensures VerifyChecksum(FrameText(data)) == Ok(true)
    ensures VerifyChecksum(FrameText(data) + "\n") == Ok(true)
  {
    MatchFrameComplete(Frame(data, Checksum(data)));
  }

  /** Round trip through bytes: an ASCII payload's encoded record, read back as text, verifies. */
  lemma VerifyEncoded(data: string)
    requires |data| > 0 && '\n' !in data && IsAscii(data)
    ensures forall i :: 0 <= i < |Encode(data)| ==> Encode(data)[i] < 0x80
    ensures AsciiText(Encode(data)) == FrameText(data)
    ensures VerifyChecksum(AsciiText(Encode(data))) == Ok(true)
  {
    EncodedText(data);
    AsciiSendable(data);
    VerifyFrameText(data);
  }

  /** The bytes of an ASCII payload's record read back as the record's text. */
  lemma EncodedText(data: string)
    requires IsAscii(data)
    ensures forall i :: 0 <= i < |Encode(data)| ==> Encode(data)[i] < 0x80
    ensures AsciiText(Encode(data)) == FrameText(data)
  {
    var text, bytes := FrameText(data), Encode(data);
    FrameTextAscii(data);
    assert |bytes| == |text|;
    forall i | 0 <= i < |bytes|
      ensures bytes[i] < 0x80
    {
      assert bytes[i] == text[i] as int;
    }
    var back := AsciiText(bytes);
    forall i | 0 <= i < |text|
      ensures back[i] == text[i]
    {
      assert back[i] as int == bytes[i] == text[i] as int;
    }
  }

  /** Conversely, every record that verifies is the frame of a sendable payload (possibly followed
      by the one newline the grammar tolerates). */
  lemma VerifiedIsFrameText(s: string)
    requires VerifyChecksum(s) == Ok(true)
    ensures var data := MatchFrame(s).value.payload;
      Sendable(data) && (s == FrameText(data) || s == FrameText(data) + "\n")
  {
    var f := MatchFrame(s).value;
    assert Checksum(f.payload) == f.checksum;
  }

  /** The records that verify are exactly the frames of sendable payloads. */
  lemma VerifyAcceptsExactly(s: string)
    ensures VerifyChecksum(s) == Ok(true)
        <==> exists data :: Sendable(data) && (s == FrameText(data) || s == FrameText(data) + "\n")
  {
    if VerifyChecksum(s) == Ok(true) {
      VerifiedIsFrameText(s);
      var data := MatchFrame(s).value.payload;
      assert Sendable(data) && (s == FrameText(data) || s == FrameText(data) + "\n");
    }
    if exists data :: Sendable(data) && (s == FrameText(data) || s == FrameText(data) + "\n") {
      var data :| Sendable(data) && (s == FrameText(data) || s == FrameText(data) + "\n");
      VerifyFrameText(data);
    }
  }

  /** Two well-formed digits that differ from the payload's checksum make verification false. */
  lemma VerifyDetectsMismatch(f: Frame)
    requires WellFormed(f) && f.checksum != Checksum(f.payload)
    ensures VerifyChecksum(Render(f)) == Ok(false)
    ensures VerifyChecksum(Render(f) + "\n") == Ok(false)
  {
    MatchFrameComplete(f);
  }

  /** Records outside the grammar are errors: no leading '$', no "\r\n" line ending, or fewer than
      the seven characters of the shortest frame `$<c>*HH\r\n` (so an empty payload, "$*HH\r\n"). */
  lemma VerifyRejectsMalformed(s: string)
    ensures (|s| == 0 || s[0] != '$') ==> VerifyChecksum(s) == Err(NoFrame)
    ensures !(|s| >= 2 && s[|s| - 2..] == "\r\n") && !(|s| >= 3 && s[|s| - 3..] == "\r\n\n")
            ==> VerifyChecksum(s) == Err(NoFrame)
    ensures |s| < 7 ==> VerifyChecksum(s) == Err(NoFrame)
  {
    if MatchFrame(s).Some? {
      var f := MatchFrame(s).value;
      assert s[0] == '$';
      assert |s| >= |Render(f)| >= 7;
    }
  }

  /** A payload whose XOR needs more than one byte (possible only beyond Latin-1) gets a checksum
      of three or more digits, which the grammar's `{2}` refuses: its own frame does not verify. */
  lemma VerifyWideChecksum(data: string)
    requires XorAll(data) as int >= 0x100
    ensures VerifyChecksum(FrameText(data)) == Err(NoFrame)
  {
    var cs := Checksum(data);
    var head := "$" + data + "*" + cs;
    assert FrameText(data) == head + "\r\n";
    MatchFrameLineEnd(head);
    assert |cs| >= 3;
    assert head[|head| - 3] == cs[|cs| - 3];
    assert IsHexDigit(cs[|cs| - 3]);
    assert head[|head| - 3] != '*';
    assert MatchHead(head) == None;
  }

  /** A text ending in a single "\r\n" is matched by matching what comes before it. */
  lemma MatchFrameLineEnd(head: string)
    ensures MatchFrame(head + "\r\n") == MatchHead(head)
  {
    var s := head + "\r\n";
    assert !(|s| >= 3 && s[|s| - 3..] == "\r\n\n") by {
      assert s[|s| - 2] == '\r';
    }
    assert s[|s| - 2..] == "\r\n";
    assert s[..|s| - 2] == head;
  }
}
