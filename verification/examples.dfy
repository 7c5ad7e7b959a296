/** Worked records: the values the repository's own tests expect, derived from the model. */
module Examples {
  import opened Outcomes
  import opened Text
  import opened Checksums
  import opened Framing
  import opened Values
  import opened Commands

  /** One character of a literal folded into the XOR of the prefix before it. */
  lemma XorStep(s: string, k: nat, c: char, code: bv21, before: bv21, after: bv21)
    requires k < |s| && s[k] == c && c as int == code as int
    requires XorAll(s[..k]) == before && after == before ^ code
    ensures XorAll(s[..k + 1]) == after
  {
    XorAllStep(s, k);
    OrdCode(c, code);
  }

  lemma OrdCode(c: char, code: bv21)
    requires c as int == code as int
    ensures Ord(c) == code
  {
  }

  /** `FASTATUS,0` XORs to 0x0F. */
  lemma XorOfFastatusZero(s: string)
    requires s == "FASTATUS,0"
    ensures XorAll(s) == 15
  {
    assert s[..0] == [];
    XorStep(s, 0, 'F', 70, 0, 70);
    XorStep(s, 1, 'A', 65, 70, 7);
    XorStep(s, 2, 'S', 83, 7, 84);
    XorStep(s, 3, 'T', 84, 84, 0);
    XorStep(s, 4, 'A', 65, 0, 65);
    XorStep(s, 5, 'T', 84, 65, 21);
    XorStep(s, 6, 'U', 85, 21, 64);
    XorStep(s, 7, 'S', 83, 64, 19);
    XorStep(s, 8, ',', 44, 19, 63);
    XorStep(s, 9, '0', 48, 63, 15);
    assert s[..|s|] == s;
  }

  /** `AFSTATUS` XORs to 0x13. */
  lemma XorOfAfStatus(s: string)
    requires s == "AFSTATUS"
    ensures XorAll(s) == 19
  {
    assert s[..0] == [];
    XorStep(s, 0, 'A', 65, 0, 65);
    XorStep(s, 1, 'F', 70, 65, 7);
    XorStep(s, 2, 'S', 83, 7, 84);
    XorStep(s, 3, 'T', 84, 84, 0);
    XorStep(s, 4, 'A', 65, 0, 65);
    XorStep(s, 5, 'T', 84, 65, 21);
    XorStep(s, 6, 'U', 85, 21, 64);
    XorStep(s, 7, 'S', 83, 64, 19);
    assert s[..|s|] == s;
  }

  /** `FAMOVE,1,B,2^3^2^W` XORs to 0x73. */
  lemma XorOfFamoveNoticePart1(s: string)
    requires s == "FAMOVE,1"
    ensures XorAll(s) == 11
  {
    assert s[..0] == [];
    XorStep(s, 0, 'F', 70, 0, 70);
    XorStep(s, 1, 'A', 65, 70, 7);
    XorStep(s, 2, 'M', 77, 7, 74);
    XorStep(s, 3, 'O', 79, 74, 5);
    XorStep(s, 4, 'V', 86, 5, 83);
    XorStep(s, 5, 'E', 69, 83, 22);
    XorStep(s, 6, ',', 44, 22, 58);
    XorStep(s, 7, '1', 49, 58, 11);
    assert s[..|s|] == s;
  }

  lemma XorOfFamoveNoticePart2(s: string)
    requires s == ",B,2^3^2"
    ensures XorAll(s) == 113
  {
    assert s[..0] == [];
    XorStep(s, 0, ',', 44, 0, 44);
    XorStep(s, 1, 'B', 66, 44, 110);
    XorStep(s, 2, ',', 44, 110, 66);
    XorStep(s, 3, '2', 50, 66, 112);
    XorStep(s, 4, '^', 94, 112, 46);
    XorStep(s, 5, '3', 51, 46, 29);
    XorStep(s, 6, '^', 94, 29, 67);
    XorStep(s, 7, '2', 50, 67, 113);
    assert s[..|s|] == s;
  }

  lemma XorOfFamoveNoticePart3(s: string)
    requires s == "^W"
    ensures XorAll(s) == 9
  {
    assert s[..0] == [];
    XorStep(s, 0, '^', 94, 0, 94);
    XorStep(s, 1, 'W', 87, 94, 9);
    assert s[..|s|] == s;
  }

  /** The XOR of a concatenation of literal pieces, piece by piece. */
  lemma XorOfFamoveNotice(s: string, a: string, b: string, c: string)
    requires s == a + b + c
    requires a == "FAMOVE,1"
    requires b == ",B,2^3^2"
    requires c == "^W"
    ensures XorAll(s) == 115
  {
    XorOfFamoveNoticePart1(a);
    XorOfFamoveNoticePart2(b);
    XorOfFamoveNoticePart3(c);
    XorAllConcat(a, b);
    XorAllConcat(a + b, c);
  }

  /** `FARULE,19,1200,30,3,650,1^3^2^B` XORs to 0x2D. */
  lemma XorOfFaruleRecordPart1(s: string)
    requires s == "FARULE,1"
    ensures XorAll(s) == 20
  {
    assert s[..0] == [];
    XorStep(s, 0, 'F', 70, 0, 70);
    XorStep(s, 1, 'A', 65, 70, 7);
    XorStep(s, 2, 'R', 82, 7, 85);
    XorStep(s, 3, 'U', 85, 85, 0);
    XorStep(s, 4, 'L', 76, 0, 76);
    XorStep(s, 5, 'E', 69, 76, 9);
    XorStep(s, 6, ',', 44, 9, 37);
    XorStep(s, 7, '1', 49, 37, 20);
    assert s[..|s|] == s;
  }

  lemma XorOfFaruleRecordPart2(s: string)
    requires s == "9,1200,3"
    ensures XorAll(s) == 9
  {
    assert s[..0] == [];
    XorStep(s, 0, '9', 57, 0, 57);
    XorStep(s, 1, ',', 44, 57, 21);
    XorStep(s, 2, '1', 49, 21, 36);
    XorStep(s, 3, '2', 50, 36, 22);
    XorStep(s, 4, '0', 48, 22, 38);
    XorStep(s, 5, '0', 48, 38, 22);
    XorStep(s, 6, ',', 44, 22, 58);
    XorStep(s, 7, '3', 51, 58, 9);
    assert s[..|s|] == s;
  }

  lemma XorOfFaruleRecordPart3(s: string)
    requires s == "0,3,650,"
    ensures XorAll(s) == 28
  {
    assert s[..0] == [];
    XorStep(s, 0, '0', 48, 0, 48);
    XorStep(s, 1, ',', 44, 48, 28);
    XorStep(s, 2, '3', 51, 28, 47);
    XorStep(s, 3, ',', 44, 47, 3);
    XorStep(s, 4, '6', 54, 3, 53);
    XorStep(s, 5, '5', 53, 53, 0);
    XorStep(s, 6, '0', 48, 0, 48);
    XorStep(s, 7, ',', 44, 48, 28);
    assert s[..|s|] == s;
  }

  lemma XorOfFaruleRecordPart4(s: string)
    requires s == "1^3^2^B"
    ensures XorAll(s) == 44
  {
    assert s[..0] == [];
    XorStep(s, 0, '1', 49, 0, 49);
    XorStep(s, 1, '^', 94, 49, 111);
    XorStep(s, 2, '3', 51, 111, 92);
    XorStep(s, 3, '^', 94, 92, 2);
    XorStep(s, 4, '2', 50, 2, 48);
    XorStep(s, 5, '^', 94, 48, 110);
    XorStep(s, 6, 'B', 66, 110, 44);
    assert s[..|s|] == s;
  }

  /** The XOR of a concatenation of literal pieces, piece by piece. */
  lemma XorOfFaruleRecord(s: string, a: string, b: string, c: string, d: string)
    requires s == a + b + c + d
    requires a == "FARULE,1"
    requires b == "9,1200,3"
    requires c == "0,3,650,"
    requires d == "1^3^2^B"
    ensures XorAll(s) == 45
  {
    XorOfFaruleRecordPart1(a);
    XorOfFaruleRecordPart2(b);
    XorOfFaruleRecordPart3(c);
    XorOfFaruleRecordPart4(d);
    XorAllConcat(a, b);
    XorAllConcat(a + b, c);
    XorAllConcat(a + b + c, d);
  }

  // ---------------------------------------------------------------------------------------------
  // Spelling: the texts of the tests, cut into the pieces the model builds them from. These
  // lemmas mention sequences only.

  lemma StatusZeroSpelled(data: string, keyword: string, field: string)
    requires data == "FASTATUS,0" && keyword == "FASTATUS" && field == "0"
    ensures data == keyword + "," + field
  {
  }

  lemma StatusZeroTail(data: string, s: string, bad: string)
    requires data == "FASTATUS,0" && s == "$" + data + "*0F\r\n" && bad == "$" + data + "*0E\r\n"
    ensures s == "$" + data + "*" + "0F" + "\r\n"
    ensures bad == "$" + data + "*" + "0E" + "\r\n"
  {
    FrameTail("$" + data, "*0F\r\n", "0F");
    FrameTail("$" + data, "*0E\r\n", "0E");
  }

  lemma AfStatusSpelled(s: string, data: string)
    requires s == "$AFSTATUS*13\r\n" && data == "AFSTATUS"
    ensures s == "$" + data + "*" + "13" + "\r\n"
  {
  }

  lemma TokenSpelled(token: string, step: string, x: string, y: string, color: string)
    requires || (token == "1^12^11^B" && step == "1" && x == "12" && y == "11" && color == "B")
             || (token == "2^3^2^W" && step == "2" && x == "3" && y == "2" && color == "W")
             || (token == "1^3^2^B" && step == "1" && x == "3" && y == "2" && color == "B")
    ensures token == step + "^" + x + "^" + y + "^" + color
  {
  }

  lemma StatusWithMoveSpelled(data: string, keyword: string, a: string, b: string, c: string)
    requires data == "FASTATUS,1,W,1^12^11^B"
    requires keyword == "FASTATUS" && a == "1" && b == "W" && c == "1^12^11^B"
    ensures data == keyword + "," + a + "," + b + "," + c
  {
  }

  lemma MoveNoticeSpelled(data: string, keyword: string, a: string, b: string, c: string)
    requires data == "FAMOVE,1,B,2^3^2^W"
    requires keyword == "FAMOVE" && a == "1" && b == "B" && c == "2^3^2^W"
    ensures data == keyword + "," + a + "," + b + "," + c
  {
  }

  lemma MoveNoticeTail(data: string, s: string)
    requires data == "FAMOVE,1,B,2^3^2^W" && s == "$" + data + "*73\r\n"
    ensures s == "$" + data + "*" + "73" + "\r\n"
  {
    FrameTail("$" + data, "*73\r\n", "73");
  }

  lemma RuleSpelled(data: string, keyword: string, a: string, b: string, c: string, d: string,
                    e: string, f: string)
    requires data == "FARULE,19,1200,30,3,650,1^3^2^B" && keyword == "FARULE"
    requires a == "19" && b == "1200" && c == "30" && d == "3" && e == "650" && f == "1^3^2^B"
    ensures data == keyword + "," + a + "," + b + "," + c + "," + d + "," + e + "," + f
  {
  }

  /** A record's text cut after its payload: the checksum digits and the line ending. */
  lemma FrameTail(head: string, tail: string, cs: string)
    requires tail == "*" + cs + "\r\n"
    ensures head + tail == head + "*" + cs + "\r\n"
  {
  }

  lemma RuleTail(data: string, s: string)
    requires data == "FARULE,19,1200,30,3,650,1^3^2^B" && s == "$" + data + "*2D\r\n"
    ensures s == "$" + data + "*" + "2D" + "\r\n"
  {
    FrameTail("$" + data, "*2D\r\n", "2D");
  }

  // ---------------------------------------------------------------------------------------------
  // The same pieces, as the model builds them

  /** The record of a payload whose checksum is known, spelled out. */
  lemma FrameSpelled(data: string, cs: string)
    requires Checksum(data) == cs
    ensures FrameText(data) == "$" + data + "*" + cs + "\r\n"
  {
  }

  /** A token from the decimal texts of its three integers and its colour. */
  lemma TokenText(m: Move, step: string, x: string, y: string, color: string, token: string)
    requires IntText(m.step) == step && IntText(m.x) == x && IntText(m.y) == y
    requires Color(m.player) == color
    requires token == step + "^" + x + "^" + y + "^" + color
    ensures MoveToken(m) == token && MoveTokens([m]) == [token]
  {
    MoveTokenText(m);
  }

  lemma JoinText3(a: string, b: string, c: string)
    ensures Join([a, b, c], ',') == a + "," + b + "," + c
  {
    JoinCons(b, [c], ',');
    JoinCons(a, [b, c], ',');
    assert [a] + [b, c] == [a, b, c];
    assert [b] + [c] == [b, c];
  }

  /** A record of three fields, spelled out. */
  lemma Record3(keyword: string, fields: seq<string>)
    requires |fields| == 3
    ensures Record(keyword, fields) == keyword + "," + fields[0] + "," + fields[1] + "," + fields[2]
  {
    JoinText3(fields[0], fields[1], fields[2]);
    assert fields == [fields[0], fields[1], fields[2]];
  }

  /** A record of six fields, spelled out. */
  lemma Record6(keyword: string, fields: seq<string>)
    requires |fields| == 6
    ensures Record(keyword, fields) == keyword + "," + fields[0] + "," + fields[1] + "," + fields[2]
                                       + "," + fields[3] + "," + fields[4] + "," + fields[5]
  {
    var p, q := fields[..3], fields[3..];
    assert fields == p + q;
    JoinAppend(p, q, ',');
    JoinText3(p[0], p[1], p[2]);
    assert p == [p[0], p[1], p[2]];
    JoinText3(q[0], q[1], q[2]);
    assert q == [q[0], q[1], q[2]];
  }
  /** The decimal numeral of `n` is that of `n / 10` followed by its last digit. */
  lemma DecimalStep(n: nat, high: string, last: char)
    requires n >= 10 && IntText(n / 10) == high && last == DigitChar(n % 10)
    ensures IntText(n) == high + [last]
  {
  }

  // ---------------------------------------------------------------------------------------------
  // The tests

  /** `test_get_checksum`: the checksum of "FASTATUS,0" is "0F". */
  lemma ChecksumOfStatusZero(data: string)
    requires data == "FASTATUS,0"
    ensures Checksum(data) == "0F"
  {
    XorOfFastatusZero(data);
    ChecksumDigits(data, 0, 15);
  }

  /** `test_verify_checksum`: the record with the right digits verifies, the one with digits one
      off does not. */
  lemma VerifyStatusZero(data: string, s: string, bad: string)
    requires data == "FASTATUS,0" && s == "$" + data + "*0F\r\n" && bad == "$" + data + "*0E\r\n"
    ensures VerifyChecksum(s) == Ok(true)
    ensures VerifyChecksum(bad) == Ok(false)
  {
    StatusZeroTail(data, s, bad);
    ChecksumOfStatusZero(data);
    FrameSpelled(data, "0F");
    StatusZeroSendable(data);
    VerifyFrameText(data);
    var f := Frame(data, "0E");
    assert bad == Render(f);
    assert WellFormed(f);
    VerifyDetectsMismatch(f);
  }

  lemma StatusZeroSendable(data: string)
    requires data == "FASTATUS,0"
    ensures Sendable(data)
  {
    AsciiSendable(data);
  }

  lemma ChecksumOfAfStatus(data: string)
    requires data == "AFSTATUS"
    ensures Checksum(data) == "13"
  {
    XorOfAfStatus(data);
    ChecksumDigits(data, 1, 3);
  }

  /** `test_encode`: "AFSTATUS" is framed as "$AFSTATUS*13\r\n" and encoded as its UTF-8 bytes. */
  lemma EncodeAfStatus(data: string, s: string)
    requires data == "AFSTATUS" && s == "$AFSTATUS*13\r\n"
    ensures Encode(data) == Utf8(s)
  {
    ChecksumOfAfStatus(data);
    AfStatusSpelled(s, data);
    FrameSpelled(data, "13");
  }

  /** `test_not_playing`: "$FASTATUS,0*0F\r\n" loads as a status record with the one field "0";
      it is not playing and carries no moves, and as written its colour is refused. */
  lemma LoadStatusZero(data: string, s: string)
    requires data == "FASTATUS,0" && s == "$" + data + "*0F\r\n"
    ensures LoadCommand(s) == Ok(FACommand(Status, "FASTATUS", "0", ["0"]))
  {
    ChecksumOfStatusZero(data);
    StatusZeroSpelled(data, STATUS, Flag(false));
    StatusZeroTail(data, s, "$" + data + "*0E\r\n");
    FrameSpelled(data, "0F");
    var fields := [Flag(false)];
    assert Join(fields, ',') == Flag(false);
    KeywordsPlain();
    FlagPlain(false);
    LoadPlainRecord(STATUS, fields);
  }

  /** What the record of `test_not_playing` reads as: not playing, no moves, and as written its
      colour is refused; the colour field itself is missing. */
  lemma ReadStatusZero(c: FACommand)
    requires c == FACommand(Status, "FASTATUS", "0", ["0"])
    ensures IsPlaying(c) == Ok(false) && StatusMoves(c) == Ok([])
    ensures StatusColor(c) == Err(UnknownColor("0"))
    ensures StatusColorIntended(c) == Err(IndexOutOfRange(1))
  {
  }

  /** `test_load_status`: the record hydrated from "FASTATUS,1,W,1^12^11^B" is playing and holds
      the one move 1^12^11^B. */
  lemma LoadStatusWithMove(m: Move, data: string)
    requires m == Move(1, 12, 11, Black) && data == "FASTATUS,1,W,1^12^11^B"
    ensures var r := LoadCommand(FrameText(data));
      r.Ok? && r.value.kind == Status
      && IsPlaying(r.value) == Ok(true)
      && StatusMoves(r.value) == Ok([m])
  {
    var token := "1^12^11^B";
    TokenSpelled(token, "1", "12", "11", "B");
    DecimalStep(12, "1", '2');
    DecimalStep(11, "1", '1');
    TokenText(m, "1", "12", "11", "B", token);
    var fields := StatusFields(true, White, [m]);
    assert fields == [Flag(true), Color(White), token];
    Record3(STATUS, fields);
    StatusWithMoveSpelled(data, STATUS, Flag(true), Color(White), token);
    StatusRoundTrip(true, White, [m]);
  }

  /** The payload of `test_move` has the checksum "73". */
  lemma ChecksumOfMoveNotice(data: string)
    requires data == "FAMOVE,1,B,2^3^2^W"
    ensures Checksum(data) == "73"
  {
    XorOfFamoveNotice(data, "FAMOVE,1", ",B,2^3^2", "^W");
    ChecksumDigits(data, 7, 3);
  }

  /** `test_move`: "$FAMOVE,1,B,2^3^2^W*73\r\n" has the AI flag set, the AI playing
      black, and the move 2^3^2^W. */
  lemma LoadMoveNotice(m: Move, data: string, s: string)
    requires m == Move(2, 3, 2, White) && data == "FAMOVE,1,B,2^3^2^W"
    requires s == "$" + data + "*73\r\n"
    ensures var r := LoadCommand(s);
      r.Ok? && r.value.kind == MoveNotice
      && AIPlayer(r.value) == Ok(Black)
      && IsAI(r.value) == Ok(true)
      && NoticeMove(r.value) == Ok(m)
  {
    var token := "2^3^2^W";
    TokenSpelled(token, "2", "3", "2", "W");
    TokenText(m, "2", "3", "2", "W", token);
    var fields := NoticeFields(true, Black, m);
    assert fields == [Flag(true), Color(Black), token];
    Record3(MOVE, fields);
    MoveNoticeSpelled(data, MOVE, Flag(true), Color(Black), token);
    MoveNoticeFrame(data, s);
    MoveNoticeRoundTrip(true, Black, m);
  }

  /** The record of `test_move` is the frame of its payload. */
  lemma MoveNoticeFrame(data: string, s: string)
    requires data == "FAMOVE,1,B,2^3^2^W"
    requires s == "$" + data + "*73\r\n"
    ensures s == FrameText(data)
  {
    MoveNoticeTail(data, s);
    ChecksumOfMoveNotice(data);
    FrameSpelled(data, "73");
  }

  /** The settings of the rule record of the repository's tests, as decimal text. */
  lemma RuleNumbers()
    ensures IntText(19) == "19" && IntText(1200) == "1200" && IntText(30) == "30"
    ensures IntText(3) == "3" && IntText(650) == "650"
  {
    DecimalStep(19, "1", '9');
    DecimalStep(30, "3", '0');
    DecimalStep(65, "6", '5');
    DecimalStep(650, "65", '0');
    DecimalStep(12, "1", '2');
    DecimalStep(120, "12", '0');
    DecimalStep(1200, "120", '0');
  }

  lemma RuleFieldsText(rules: Rules, m: Move, token: string)
    requires m == Move(1, 3, 2, Black) && token == "1^3^2^B"
    requires rules == Rules(19, 1200, 30, 3, 650, [m])
    ensures RuleFields(rules) == ["19", "1200", "30", "3", "650", token]
  {
    TokenSpelled(token, "1", "3", "2", "B");
    TokenText(m, "1", "3", "2", "B", token);
    RuleNumbers();
    assert RuleFields(rules) == ["19", "1200", "30", "3", "650"] + [token];
  }

  /** The rule payload of the repository's tests has the checksum "2D". */
  lemma ChecksumOfRule(data: string)
    requires data == "FARULE,19,1200,30,3,650,1^3^2^B"
    ensures Checksum(data) == "2D"
  {
    XorOfFaruleRecord(data, "FARULE,1", "9,1200,3", "0,3,650,", "1^3^2^B");
    ChecksumDigits(data, 2, 13);
  }

  /** `test_rule`: "$FARULE,19,1200,30,3,650,1^3^2^B*2D\r\n" is a 19-line board, 1200 s main time,
      three 30 s byo-yomi periods, komi 650 hundredths (6.5) and one handicap stone at 1^3^2^B. */
  lemma LoadRule(m: Move, rules: Rules, data: string, s: string)
    requires m == Move(1, 3, 2, Black)
    requires rules == Rules(19, 1200, 30, 3, 650, [m])
    requires data == "FARULE,19,1200,30,3,650,1^3^2^B"
    requires s == "$" + data + "*2D\r\n"
    ensures var r := LoadCommand(s);
      r.Ok? && r.value.kind == Rule
      && BoardSize(r.value) == Ok(19)
      && MainTime(r.value) == Ok(1200)
      && ByoYomiTime(r.value) == Ok(30)
      && ByoYomiCount(r.value) == Ok(3)
      && KomiHundredths(r.value) == Ok(650)
      && HandicapMoves(r.value) == Ok([m])
  {
    RuleRecord(rules, m, data);
    RuleFrame(data, s);
    RuleRoundTrip(rules);
  }

  /** The rule record of the repository's tests is the frame of its payload. */
  lemma RuleFrame(data: string, s: string)
    requires data == "FARULE,19,1200,30,3,650,1^3^2^B"
    requires s == "$" + data + "*2D\r\n"
    ensures s == FrameText(data)
  {
    RuleTail(data, s);
    ChecksumOfRule(data);
    FrameSpelled(data, "2D");
  }

  /** The rule record of the repository's tests is the record of its settings. */
  lemma RuleRecord(rules: Rules, m: Move, data: string)
    requires m == Move(1, 3, 2, Black)
    requires rules == Rules(19, 1200, 30, 3, 650, [m])
    requires data == "FARULE,19,1200,30,3,650,1^3^2^B"
    ensures Record(RULE, RuleFields(rules)) == data
  {
    var fields := RuleFields(rules);
    RuleFieldsText(rules, m, "1^3^2^B");
    Record6(RULE, fields);
    RuleSpelled(data, RULE, fields[0], fields[1], fields[2], fields[3], fields[4], fields[5]);
  }
}
