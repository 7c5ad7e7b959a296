# fox_sdk record codec, modelled in Dafny

A game host and an automated Go player exchange text records of the form
`$<payload>*<HH>\r\n`. `HH` is the XOR of the code points of the payload's characters, written
as upper-case hexadecimal and padded to two digits. A payload is a keyword and comma-separated
fields, for example `FAMOVE,1,B,2^3^2^W`: the AI flag is set, the AI plays black, and the move is step 2
at x 3, y 2 for white.

This project models the codec in `command.py`:

- `outcomes.dfy`: the `Option` and `Result` wrappers. The `Error` type names the ways a
  Python call in the core raises in this model: no frame match, a wrong checksum, no comma, a
  wrong number of move parts, a non-integer, an unknown colour, an index past the end. The
  `OverflowError` of `timedelta` on a huge duration is not among them.
- `text.dfy`: the string primitives the core uses:
  - `str.split` in full and at the first separator, and `str.join`;
  - `int()` and `str()`;
  - `hex()` and `zfill`;
  - UTF-8 `encode`.
- `values.dfy`: `Player.from_color`, and `Move.from_str` with its inverse, the move token
  `step^x^y^color`.
- `checksum.dfy`: `get_checksum`. The method with its loop is proved against the recursive XOR
  `XorAll`. The XOR algebra is proved: concatenation, permutation, and two digits for ASCII.
- `framing.dfy`: `encode` and `verify_checksum`. The frame grammar
  `^\$(.+)\*([0-9A-F]{2})\r\n$` is matched directly. Python's `$` also matches before one final
  newline, so that form is accepted too. It is proved that the records which verify are exactly
  the frames of sendable payloads.
- `commands.dfy`: the keyword registry, `load_command`, and the positional field readers of
  `FASTATUS`, `FAMOVE` and `FARULE`. Each keyword has a round trip: a record built from typed
  values loads under its class and reads those values back.
- `examples.dfy`: the repository's test vectors, proved symbolically. They are checked by the
  verifier, not executed.

Python exceptions become `Err` values. Each accessor `requires` the class it is a property of:
in Python the property exists only on that class.

## Model

| member | source | states |
|---|---|---|
| Values.FromColor | command.py:13-19 | "B" and "W" and nothing else are accepted; the player's code is the text given; any other text fails with that text as an unknown colour |
| Values.FromColorOfColor | command.py:13-19 | every player's code reads back as that player |
| Values.MoveFromStr | command.py:82-84 | a token is accepted iff it has exactly four '^'-separated parts, three integers then "B" or "W"; any other part count is a part-count error; step, x and y are `int()` of parts 0 to 2 and the colour is the fourth part; with four parts, the error is that of the first part from the left that fails |
| Values.MoveTokenText | command.py:82-84 | the token of a move is `step^x^y^color` with decimal integers |
| Values.MoveTokenRoundTrip | command.py:82-84 | every move written as its token reads back as the same move |
| Text.Split | command.py:160 | `split(',')` gives at least one piece; no piece holds the separator; the pieces joined by it give the text back |
| Text.SplitJoin | command.py:160 | splitting the join of separator-free pieces gives the pieces back |
| Text.SplitFirst | command.py:154 | `split(',', 1)` unpacked fails iff there is no separator; otherwise the head holds no separator, and head, separator and rest rebuild the text |
| Text.SplitFirstThenSplit | command.py:154-160 | splitting the content after the first comma gives the same fields as splitting the whole payload, minus the keyword |
| Text.ParseInt | command.py:84 | `int()` succeeds iff the text is an optional sign followed by decimal digits; the value is that of the digits, negated iff the sign is '-'; a failure names the text |
| Text.ParseIntPadded | command.py:84 | leading zeros and a '+' leave the value unchanged, and a '-' negates it: "019" and "+19" read as 19, "-0" as 0 |
| Text.ParseIntText | command.py:84 | the decimal text of every integer parses back to it |
| Text.IntTextAlphabet | command.py:84 | decimal text is ASCII and holds no '^', ',' or newline |
| Text.Numeral | command.py:50 | the hexadecimal digits of `n` denote `n` and have no leading zero |
| Text.HexLength | command.py:50 | a numeral has one hex digit below 0x10, two below 0x100, and at least three from 0x100 on |
| Text.ZFill | command.py:50 | for text without a sign, `zfill(w)` keeps the text as its suffix, pads on the left with '0' only, and reaches width `w` |
| Text.Utf8Char | command.py:42 | the UTF-8 bytes of a character have the lead and continuation byte ranges of the standard and decode to its code point; the shortest form is used: one byte below 0x80, two below 0x800, three below 0x10000, four above |
| Text.Utf8 | command.py:42 | `encode()` of one character is that character's UTF-8 bytes; at least one byte per character, and for ASCII text exactly the character codes |
| Text.Utf8Concat | command.py:42 | `encode()` works character by character: a concatenation encodes as the encodings of its parts, one after the other |
| Checksums.Checksum | command.py:45-50 | the checksum is at least two upper-case hex digits denoting the XOR of all code points; exactly two iff that XOR is below 0x100 |
| Checksums.GetChecksum | command.py:45-50 | the loop that XORs each character into the accumulator returns the checksum of the whole payload |
| Checksums.XorAllConcat | command.py:47-49 | the XOR of a concatenation is the XOR of the XORs of its parts |
| Checksums.XorAllPermutation | command.py:47-49 | the XOR depends only on the multiset of characters |
| Checksums.ChecksumPermutation | command.py:45-50 | payloads with the same characters in any order have the same checksum |
| Checksums.ChecksumConcatCommutes | command.py:45-50 | swapping the two halves of a payload keeps its checksum |
| Checksums.ChecksumOfDouble | command.py:45-50 | a payload repeated twice has checksum "00" |
| Checksums.XorAllAscii | command.py:47-49 | ASCII characters XOR to a value below 0x80 |
| Checksums.ChecksumAscii | command.py:45-50 | an ASCII payload's checksum is exactly two digits, the high and the low half of the XOR |
| Framing.MatchFrame | command.py:55 | a match yields a payload that is non-empty and free of newlines, plus two hex digits; the text is their frame, possibly followed by one newline |
| Framing.MatchFrameComplete | command.py:55 | every frame the grammar describes is matched, with or without one final newline, and its groups come back unchanged |
| Framing.Encode | command.py:40-42 | an ASCII payload is encoded as `len + 6` bytes, which are the character codes of `$payload*HH\r\n` |
| Framing.FrameTextAscii | command.py:40-42 | the frame of an ASCII payload is ASCII and six characters longer |
| Framing.VerifyChecksum | command.py:53-59 | it fails iff the grammar does not match, and that failure is the frame error |
| Framing.VerifyFrameText | command.py:40-59 | the frame of every sendable payload verifies, with or without one final newline, and the grammar captures exactly that payload |
| Framing.VerifyEncoded | command.py:40-59 | the bytes of an ASCII payload's encoded record, read back as text, are its frame, and that frame verifies |
| Framing.VerifiedIsFrameText | command.py:53-59 | every record that verifies is the frame of a sendable payload, possibly followed by one newline |
| Framing.VerifyAcceptsExactly | command.py:53-59 | a record verifies iff it is the frame of some sendable payload, possibly followed by one newline |
| Framing.VerifyDetectsMismatch | command.py:57-59 | two well-formed digits that differ from the payload's checksum make verification return false |
| Framing.VerifyRejectsMalformed | command.py:55-57 | these records fail with the frame error: no leading '$', no "\r\n" ending, or shorter than seven characters (for example an empty payload) |
| Framing.VerifyWideChecksum | command.py:50-55 | a payload whose XOR reaches 0x100 gets three or more digits, so its own frame fails the grammar |
| Commands.KindOf | command.py:141-145 | FASTATUS, FAMOVE and FARULE pick their own classes; every unregistered keyword falls back to the generic class |
| Commands.LoadCommand | command.py:148-167 | it fails with the frame error iff verification fails, with a checksum error iff the digits are wrong, with a comma error iff the payload has no comma, and otherwise loads. The keyword is the text before the first comma and the content the text after it. The fields are the content split at commas. The class is the one registered for the keyword |
| Commands.LoadRecord | command.py:148-167 | the frame of a sendable record loads with exactly its keyword, its content and its fields, under any keyword |
| Commands.LoadedIsRecord | command.py:148-167 | every record that loads is the frame of its own keyword and fields, possibly followed by one newline |
| Commands.LoadPlainRecord | command.py:148-167 | a record of ASCII fields without commas or newlines loads back to those fields |
| Commands.Field | command.py:90 | reading field `i` succeeds iff `i` is below the field count, and otherwise raises the index error for `i` |
| Commands.FlagField | command.py:90 | a flag field is true iff it is exactly "1" |
| Commands.ColorField | command.py:108 | a colour field is read iff it is "B" or "W"; otherwise it is an index error or an unknown colour naming the field |
| Commands.IntField | command.py:118 | an integer field is read iff it exists and is integer text; its value is what `int()` gives |
| Commands.MoveField | command.py:112 | a move field is the field converted by `Move.from_str`, or an index error |
| Commands.ParseMoves | command.py:98 | the tokens convert iff each one does. The moves come in token order, one per token. Otherwise the error is that of the first token that fails |
| Commands.MovesFrom | command.py:98 | the moves from field `i` on; a slice past the end is empty |
| Commands.IsPlaying | command.py:88-90 | `is_playing` is field 0 == "1", and an index error without it |
| Commands.StatusColor | command.py:92-94 | `color` as written converts field 0: it succeeds iff field 0 is "B" or "W" |
| Commands.StatusColorIntended | command.py:92-94 | the corrected `color` converts field 1, the colour to move |
| Commands.StatusMoves | command.py:96-98 | `moves` converts every field from 2 on, in order |
| Commands.IsAI | command.py:102-104 | `is_AI` is field 0 == "1" |
| Commands.AIPlayer | command.py:106-108 | `AI_player` is the colour in field 1 |
| Commands.NoticeMove | command.py:110-112 | `move` is field 2 converted by `Move.from_str` |
| Commands.BoardSize | command.py:116-118 | `size` is the integer in field 0 |
| Commands.MainTime | command.py:120-122 | `duration` is the integer in field 1, in seconds |
| Commands.ByoYomiTime | command.py:124-126 | `byo_yomi_duration` is the integer in field 2, in seconds |
| Commands.ByoYomiCount | command.py:128-130 | `byo_yomi_count` is the integer in field 3 |
| Commands.KomiHundredths | command.py:132-134 | `komi` is the integer in field 4, in hundredths |
| Commands.HandicapMoves | command.py:136-138 | `handicap_moves` converts every field from 5 on, in order |
| Commands.ParseMoveTokens | command.py:98 | the tokens of any list of moves convert back to exactly that list |
| Commands.StatusRoundTrip | command.py:87-98 | a status record loads as FASTATUS. Its playing flag, its colour field (read at index 1) and its moves read back |
| Commands.StatusColorRefused | command.py:92-94 | as written, `color` of every loaded status record fails: the playing flag "0" or "1" is no colour |
| Commands.MoveNoticeRoundTrip | command.py:101-112 | a move notice loads as FAMOVE, and its AI flag, the AI's colour and its move read back |
| Commands.RuleRoundTrip | command.py:115-138 | a rule record loads as FARULE. Its size, both times, the byo-yomi count, the komi and the handicap stones read back |
| Examples.ChecksumOfStatusZero | test_command.py:9-11 | the checksum of "FASTATUS,0" is "0F" |
| Examples.VerifyStatusZero | test_command.py:14-16 | "$FASTATUS,0*0F\r\n" verifies and "$FASTATUS,0*0E\r\n" does not |
| Examples.LoadStatusWithMove | test_command.py:19-31 | the framed "FASTATUS,1,W,1^12^11^B" is a playing status record holding the one move 1^12^11^B |
| Examples.ChecksumOfAfStatus | test_command.py:34-36 | the checksum of "AFSTATUS" is "13" |
| Examples.EncodeAfStatus | test_command.py:34-36 | "AFSTATUS" encodes as the bytes of "$AFSTATUS*13\r\n" |
| Examples.LoadStatusZero | test_command.py:39-45 | "$FASTATUS,0*0F\r\n" loads as FASTATUS with content "0" and fields ["0"] |
| Examples.ReadStatusZero | command.py:88-98 | that record is not playing and has no moves. As written its colour is refused; field 1 is missing |
| Examples.ChecksumOfMoveNotice | test_command.py:48-54 | the checksum of "FAMOVE,1,B,2^3^2^W" is "73" |
| Examples.LoadMoveNotice | test_command.py:48-54 | "$FAMOVE,1,B,2^3^2^W*73\r\n" has the AI flag set, the AI plays black, and the move is 2^3^2^W |
| Examples.ChecksumOfRule | tests/test_command.py:58-59 | the checksum of "FARULE,19,1200,30,3,650,1^3^2^B" is "2D" |
| Examples.LoadRule | tests/test_command.py:58-65 | the rule record reads as size 19, 1200 s, 30 s, 3 periods, komi 650 hundredths and the handicap stone 1^3^2^B |

## Left out

- main.py (stdin bridging and logging), server.py (sockets) and setup.py (packaging) are not part of this model: they are I/O and packaging, not codec.
- `load_commands`, `FARESULT`, `FASKIP`, `FATIMELEFT`, `AFCommands.play`/`skip`/`give_up` and the `raise_exception` argument are not part of this model. The tests import them from a version of the module whose source is not available.
- `AFCommands` and the unregistered `FACommands` members (command.py:22-37) are plain enumerations; only the three registered keywords matter to `load_command`.
- Commands.KomiHundredths: `komi` divides by 100 into a float (command.py:134). The model keeps the integer number of hundredths; floating point is left out.
- Commands.MainTime: `duration` is a `timedelta` (command.py:122); the model keeps the integer seconds. The same holds for Commands.ByoYomiTime (command.py:126).
- Commands.StatusMoves: `moves` and `handicap_moves` are generators (command.py:98, 138). The model is the list they yield. For a bad token, the error is the one raised when the list is consumed.
- Text.ParseInt: accepts an optional sign and ASCII decimal digits only. Python's `int()` also strips surrounding whitespace and accepts '_' between digits and non-ASCII decimal digits; those texts are refused here.
- The `isinstance(data, str)` assertions (command.py:46, 54, 149) hold by typing: every input is a `string`.
- UTF-8 decoding of received bytes is modelled for ASCII only (`Framing.AsciiText`); encoding is modelled for every character.
- `Command` and `FACommand` as Python classes (command.py:62-71) become one datatype with a `kind` tag naming the class.
- A grammar mismatch in `verify_checksum` is `m.group` on `None` in the code, an AttributeError. It is modelled as the frame error.
- Commands.LoadCommand: the checksum test at command.py:150 is an `assert` statement. Under `python -O` it is removed and `verify_checksum` is never called: a record with wrong digits then loads, and a text outside the grammar raises AttributeError at command.py:153. The model holds with assertions enabled.
- Text.Utf8: Dafny characters are Unicode scalar values, so a payload holding a lone surrogate, which `.encode()` refuses with UnicodeEncodeError, cannot be written.
- Text.ZFill: Python's `zfill` puts the zeros after a leading sign (`"-1".zfill(3) == "-01"`). The only use, at command.py:50, pads hexadecimal digits without a sign, and the model covers that case only.

## Findings

| source | as written | input that shows it | evidently intended | confidence | as-written member | corrected member |
|---|---|---|---|---|---|---|
| command.py:94 | `FASTATUS.color` converts `data[0]`, the playing flag | any loaded status record, for example the frame of "FASTATUS,1,W,1^12^11^B": field 0 is "1", so `from_color` raises for "1" | convert `data[1]`: `is_playing` reads field 0 as the flag (command.py:90), `moves` starts at field 2 (command.py:98), nothing reads field 1, and test_command.py:21 puts "W" there; Commands.StatusRoundTrip proves that the colour then reads back | high; not executed | Commands.StatusColorRefused | Commands.StatusColorIntended |
