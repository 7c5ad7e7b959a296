/** Records from the server: `load_command` checks a framed record, splits its payload into a
    keyword and comma-separated fields, and picks the class the keyword is registered with; the
    classes read their fields by position. */
module Commands {
  import opened Outcomes
  import opened Text
  import opened Checksums
  import opened Framing
  import opened Values

  /** The class a loaded record is an instance of: `FACommand` itself, or one of the registered ones. */
  datatype Kind = Generic | Status | MoveNotice | Rule

  const STATUS: string := "FASTATUS"
  const MOVE: string := "FAMOVE"
  const RULE: string := "FARULE"

  /** `commands`: the keywords that have a class of their own. */
  const Registry: map<string, Kind> := map[STATUS := Status, MOVE := MoveNotice, RULE := Rule]

  /** The class `load_command` instantiates for a keyword: the registered one, else `FACommand`. */
  function KindOf(keyword: string): (k: Kind)
    ensures k == Status <==> keyword == "FASTATUS"
    ensures k == MoveNotice <==> keyword == "FAMOVE"
    ensures k == Rule <==> keyword == "FARULE"
    ensures k == Generic <==> keyword !in Registry
  {
    if keyword in Registry then Registry[keyword] else Generic
  }

  /** A loaded record: its class, the keyword, the text after the first comma, and that text split
      at every comma. */
  datatype FACommand = FACommand(kind: Kind, command: string, content: string, data: seq<string>)

  /** `load_command`. A text outside the frame grammar raises inside `verify_checksum` (`m` is
      None); a wrong checksum fails the assertion on its result; a payload without a comma fails to
      unpack into keyword and content. Any other keyword loads, as a plain `FACommand` when it is
      not registered. */
  function LoadCommand(s: string): (r: Result<FACommand>)
    ensures r == Err(NoFrame) <==> VerifyChecksum(s).Err?
    ensures r == Err(ChecksumMismatch) <==> VerifyChecksum(s) == Ok(false)
    ensures r == Err(NoComma) <==> VerifyChecksum(s) == Ok(true) && ',' !in MatchFrame(s).value.payload
    ensures r.Ok? <==> VerifyChecksum(s) == Ok(true) && ',' in MatchFrame(s).value.payload
    ensures r.Ok? ==> var c := r.value;
      MatchFrame(s).Some? && MatchFrame(s).value.payload == c.command + "," + c.content
      && ',' !in c.command
      && |c.data| >= 1 && (forall i :: 0 <= i < |c.data| ==> ',' !in c.data[i])
      && Join(c.data, ',') == c.content
      && c.kind == KindOf(c.command)
  {
    var verified := VerifyChecksum(s);
    if verified.Err? then Err(NoFrame)
    else if !verified.value then Err(ChecksumMismatch)
    else
      var text := MatchFrame(s).value.payload;
      match SplitFirst(text, ',')
      case None => Err(NoComma)
      case Some((command, content)) =>
        Ok(FACommand(KindOf(command), command, content, Split(content, ',')))
  }

  /** The payload of a record: the keyword, a comma, and the fields joined by commas. */
  function Record(keyword: string, fields: seq<string>): string {
    keyword + "," + Join(fields, ',')
  }

  /** Loading the frame of a record gives back its keyword and its fields, whatever the keyword. */
  lemma LoadRecord(keyword: string, fields: seq<string>)
    requires ',' !in keyword
    requires |fields| >= 1 && forall i :: 0 <= i < |fields| ==> ',' !in fields[i]
    requires Sendable(Record(keyword, fields))
    ensures LoadCommand(FrameText(Record(keyword, fields)))
      == Ok(FACommand(KindOf(keyword), keyword, Join(fields, ','), fields))
  {
    var content := Join(fields, ',');
    VerifyFrameText(Record(keyword, fields));
    assert Record(keyword, fields) == keyword + [','] + content;
    SplitFirstAt(keyword, content, ',');
    SplitJoin(fields, ',');
  }

  /** Conversely, every record that loads is the frame of its own keyword and fields (followed at
      most by the one newline the frame grammar tolerates). */
  lemma LoadedIsRecord(s: string)
    requires LoadCommand(s).Ok?
    ensures var c := LoadCommand(s).value;
      Sendable(Record(c.command, c.data))
      && (s == FrameText(Record(c.command, c.data)) || s == FrameText(Record(c.command, c.data)) + "\n")
  {
    var c := LoadCommand(s).value;
    VerifiedIsFrameText(s);
    assert Record(c.command, c.data) == MatchFrame(s).value.payload;
  }

  // ---------------------------------------------------------------------------------------------
  // Reading fields by position

  /** `self.data[i]`, with Python's IndexError past the last field. */
  function Field(c: FACommand, i: nat): (r: Result<string>)
    ensures r.Ok? <==> i < |c.data|
    ensures r.Ok? ==> r.value == c.data[i]
    ensures r.Err? ==> r.error == IndexOutOfRange(i)
  {
    if i < |c.data| then Ok(c.data[i]) else Err(IndexOutOfRange(i))
  }

  /** `self.data[i] == '1'`: a flag is set by "1" and by nothing else. */
  function FlagField(c: FACommand, i: nat): (r: Result<bool>)
    ensures r.Ok? <==> i < |c.data|
    ensures r.Ok? ==> (r.value <==> c.data[i] == "1")
    ensures r.Err? ==> r.error == IndexOutOfRange(i)
  {
    var field :- Field(c, i);
    Ok(field == "1")
  }

  /** `int(self.data[i])`. */
  function IntField(c: FACommand, i: nat): (r: Result<int>)
    ensures r.Ok? <==> i < |c.data| && IsIntText(c.data[i])
    ensures i >= |c.data| ==> r == Err(IndexOutOfRange(i))
    ensures i < |c.data| && !IsIntText(c.data[i]) ==> r == Err(NotAnInteger(c.data[i]))
    ensures r.Ok? ==> ParseInt(c.data[i]) == Ok(r.value)
  {
    var field :- Field(c, i);
    ParseInt(field)
  }

  /** `Player.from_color(self.data[i])`. */
  function ColorField(c: FACommand, i: nat): (r: Result<Player>)
    ensures r.Ok? <==> i < |c.data| && (c.data[i] == "B" || c.data[i] == "W")
    ensures i >= |c.data| ==> r == Err(IndexOutOfRange(i))
    ensures i < |c.data| && r.Err? ==> r.error == UnknownColor(c.data[i])
    ensures r.Ok? ==> Color(r.value) == c.data[i]
  {
    var field :- Field(c, i);
    FromColor(field)
  }

  /** `Move.from_str(self.data[i])`. */
  function MoveField(c: FACommand, i: nat): (r: Result<Move>)
    ensures i >= |c.data| ==> r == Err(IndexOutOfRange(i))
    ensures i < |c.data| ==> r == MoveFromStr(c.data[i])
  {
    var field :- Field(c, i);
    MoveFromStr(field)
  }

  /** `list(map(Move.from_str, tokens))`: every token converted in order; the first token that
      does not convert raises, and its error is the result. */
  function ParseMoves(tokens: seq<string>): (r: Result<seq<Move>>)
    ensures r.Ok? <==> forall i :: 0 <= i < |tokens| ==> MoveFromStr(tokens[i]).Ok?
    ensures r.Ok? ==> |r.value| == |tokens|
                      && forall i :: 0 <= i < |tokens| ==> MoveFromStr(tokens[i]) == Ok(r.value[i])
    ensures r.Err? ==> exists i :: (0 <= i < |tokens| && MoveFromStr(tokens[i]) == Err(r.error)
                                    && forall j :: 0 <= j < i ==> MoveFromStr(tokens[j]).Ok?)
    decreases |tokens|
  {
    if tokens == [] then Ok([])
    else
      var first :- MoveFromStr(tokens[0]);
      var rest := ParseMoves(tokens[1..]);
      if rest.Err? then
        FirstErrorAfter(tokens, rest.error);
        Err(rest.error)
      else
        ConvertedAfter(tokens, first, rest.value);
        Ok([first] + rest.value)
  }

  /** A first token that converts, then the rest converted in order, is all of them converted. */
  lemma ConvertedAfter(tokens: seq<string>, first: Move, rest: seq<Move>)
    requires |tokens| >= 1 && MoveFromStr(tokens[0]) == Ok(first) && |rest| == |tokens| - 1
    requires forall i :: 0 <= i < |tokens| - 1 ==> MoveFromStr(tokens[1..][i]) == Ok(rest[i])
    ensures forall i :: 0 <= i < |tokens| ==> MoveFromStr(tokens[i]) == Ok(([first] + rest)[i])
  {
    forall i | 0 <= i < |tokens|
      ensures MoveFromStr(tokens[i]) == Ok(([first] + rest)[i])
    {
      if i > 0 {
        assert tokens[i] == tokens[1..][i - 1];
      }
    }
  }

  /** A token that fails after a first one that converts is the first failing token of them all. */
  lemma FirstErrorAfter(tokens: seq<string>, e: Error)
    requires |tokens| >= 1 && MoveFromStr(tokens[0]).Ok?
    requires exists i :: (0 <= i < |tokens| - 1 && MoveFromStr(tokens[1..][i]) == Err(e)
                          && forall j :: 0 <= j < i ==> MoveFromStr(tokens[1..][j]).Ok?)
    ensures exists i :: (0 <= i < |tokens| && MoveFromStr(tokens[i]) == Err(e)
                         && forall j :: 0 <= j < i ==> MoveFromStr(tokens[j]).Ok?)
  {
    var i :| 0 <= i < |tokens| - 1 && MoveFromStr(tokens[1..][i]) == Err(e)
             && forall j :: 0 <= j < i ==> MoveFromStr(tokens[1..][j]).Ok?;
    assert MoveFromStr(tokens[i + 1]) == Err(e);
    forall j | 0 <= j < i + 1
      ensures MoveFromStr(tokens[j]).Ok?
    {
      if j > 0 {
        assert tokens[j] == tokens[1..][j - 1];
      }
    }
  }

  /** `map(Move.from_str, self.data[i:])`; a slice past the end is empty. */
  function MovesFrom(c: FACommand, i: nat): (r: Result<seq<Move>>)
    ensures i >= |c.data| ==> r == Ok([])
    ensures i < |c.data| ==> r == ParseMoves(c.data[i..])
  {
    ParseMoves(if i <= |c.data| then c.data[i..] else [])
  }

  // ---------------------------------------------------------------------------------------------
  // FASTATUS: [0] playing flag, [1] colour, [2..] moves so far

  /** `is_playing`: field 0 is "1". */
  function IsPlaying(c: FACommand): (r: Result<bool>)
    requires c.kind == Status
    ensures r.Ok? <==> |c.data| >= 1
    ensures r.Ok? ==> (r.value <==> c.data[0] == "1")
    ensures r.Err? ==> r.error == IndexOutOfRange(0)
  {
    FlagField(c, 0)
  }

  /** `FASTATUS.color` as written: it converts field 0, the playing flag, and not field 1. */
  function StatusColor(c: FACommand): (r: Result<Player>)
    requires c.kind == Status
    ensures r.Ok? <==> |c.data| > 0 && (c.data[0] == "B" || c.data[0] == "W")
    ensures r.Ok? ==> Color(r.value) == c.data[0]
    ensures |c.data| <= 0 ==> r == Err(IndexOutOfRange(0))
    ensures |c.data| > 0 && r.Err? ==> r.error == UnknownColor(c.data[0])
  {
    ColorField(c, 0)
  }

  /** The colour field of a status record, field 1. */
  function StatusColorIntended(c: FACommand): (r: Result<Player>)
    requires c.kind == Status
    ensures r.Ok? <==> |c.data| > 1 && (c.data[1] == "B" || c.data[1] == "W")
    ensures r.Ok? ==> Color(r.value) == c.data[1]
    ensures |c.data| <= 1 ==> r == Err(IndexOutOfRange(1))
    ensures |c.data| > 1 && r.Err? ==> r.error == UnknownColor(c.data[1])
  {
    ColorField(c, 1)
  }

  /** `moves`: every token from field 2 on, converted in order. */
  function StatusMoves(c: FACommand): (r: Result<seq<Move>>)
    requires c.kind == Status
    ensures |c.data| <= 2 ==> r == Ok([])
    ensures r.Ok? <==> forall k :: 2 <= k < |c.data| ==> MoveFromStr(c.data[k]).Ok?
    ensures r.Ok? ==> |r.value| == (if |c.data| <= 2 then 0 else |c.data| - 2)
    ensures r.Ok? ==> forall k :: 2 <= k < |c.data| ==> MoveFromStr(c.data[k]) == Ok(r.value[k - 2])
  {
    MovesFrom(c, 2)
  }

  // ---------------------------------------------------------------------------------------------
  // FAMOVE: [0] AI flag, [1] the AI's colour, [2] the move

  /** `is_AI`: field 0 is "1". */
  function IsAI(c: FACommand): (r: Result<bool>)
    requires c.kind == MoveNotice
    ensures r.Ok? <==> |c.data| >= 1
    ensures r.Ok? ==> (r.value <==> c.data[0] == "1")
    ensures r.Err? ==> r.error == IndexOutOfRange(0)
  {
    FlagField(c, 0)
  }

  /** `AI_player`: the colour in field 1. */
  function AIPlayer(c: FACommand): (r: Result<Player>)
    requires c.kind == MoveNotice
    ensures r.Ok? <==> |c.data| > 1 && (c.data[1] == "B" || c.data[1] == "W")
    ensures r.Ok? ==> Color(r.value) == c.data[1]
    ensures |c.data| <= 1 ==> r == Err(IndexOutOfRange(1))
    ensures |c.data| > 1 && r.Err? ==> r.error == UnknownColor(c.data[1])
  {
    ColorField(c, 1)
  }

  /** `move`: the token in field 2. */
  function NoticeMove(c: FACommand): (r: Result<Move>)
    requires c.kind == MoveNotice
    ensures |c.data| <= 2 ==> r == Err(IndexOutOfRange(2))
    ensures |c.data| > 2 ==> r == MoveFromStr(c.data[2])
  {
    MoveField(c, 2)
  }

  // ---------------------------------------------------------------------------------------------
  // FARULE: [0] board size, [1] main time, [2] byo-yomi period, [3] byo-yomi count, [4] komi in
  // hundredths, [5..] handicap stones

  /** `size`: the integer in field 0. */
  function BoardSize(c: FACommand): (r: Result<int>)
    requires c.kind == Rule
    ensures r.Ok? <==> |c.data| > 0 && IsIntText(c.data[0])
    ensures r.Ok? ==> ParseInt(c.data[0]) == Ok(r.value)
    ensures |c.data| <= 0 ==> r == Err(IndexOutOfRange(0))
    ensures |c.data| > 0 && r.Err? ==> r.error == NotAnInteger(c.data[0])
  {
    IntField(c, 0)
  }

  /** `duration`, in seconds. */
  function MainTime(c: FACommand): (r: Result<int>)
    requires c.kind == Rule
    ensures r.Ok? <==> |c.data| > 1 && IsIntText(c.data[1])
    ensures r.Ok? ==> ParseInt(c.data[1]) == Ok(r.value)
    ensures |c.data| <= 1 ==> r == Err(IndexOutOfRange(1))
    ensures |c.data| > 1 && r.Err? ==> r.error == NotAnInteger(c.data[1])
  {
    IntField(c, 1)
  }

  /** `byo_yomi_duration`, in seconds. */
  function ByoYomiTime(c: FACommand): (r: Result<int>)
    requires c.kind == Rule
    ensures r.Ok? <==> |c.data| > 2 && IsIntText(c.data[2])
    ensures r.Ok? ==> ParseInt(c.data[2]) == Ok(r.value)
    ensures |c.data| <= 2 ==> r == Err(IndexOutOfRange(2))
    ensures |c.data| > 2 && r.Err? ==> r.error == NotAnInteger(c.data[2])
  {
    IntField(c, 2)
  }

  /** `byo_yomi_count`: the integer in field 3. */
  function ByoYomiCount(c: FACommand): (r: Result<int>)
    requires c.kind == Rule
    ensures r.Ok? <==> |c.data| > 3 && IsIntText(c.data[3])
    ensures r.Ok? ==> ParseInt(c.data[3]) == Ok(r.value)
    ensures |c.data| <= 3 ==> r == Err(IndexOutOfRange(3))
    ensures |c.data| > 3 && r.Err? ==> r.error == NotAnInteger(c.data[3])
  {
    IntField(c, 3)
  }

  /** `komi` times 100: the field as sent, before the division. */
  function KomiHundredths(c: FACommand): (r: Result<int>)
    requires c.kind == Rule
    ensures r.Ok? <==> |c.data| > 4 && IsIntText(c.data[4])
    ensures r.Ok? ==> ParseInt(c.data[4]) == Ok(r.value)
    ensures |c.data| <= 4 ==> r == Err(IndexOutOfRange(4))
    ensures |c.data| > 4 && r.Err? ==> r.error == NotAnInteger(c.data[4])
  {
    IntField(c, 4)
  }

  /** `handicap_moves`: every token from field 5 on, converted in order. */
  function HandicapMoves(c: FACommand): (r: Result<seq<Move>>)
    requires c.kind == Rule
    ensures |c.data| <= 5 ==> r == Ok([])
    ensures r.Ok? <==> forall k :: 5 <= k < |c.data| ==> MoveFromStr(c.data[k]).Ok?
    ensures r.Ok? ==> |r.value| == (if |c.data| <= 5 then 0 else |c.data| - 5)
    ensures r.Ok? ==> forall k :: 5 <= k < |c.data| ==> MoveFromStr(c.data[k]) == Ok(r.value[k - 5])
  {
    MovesFrom(c, 5)
  }

  // ---------------------------------------------------------------------------------------------
  // Records the server sends, and what the classes read back from them

  /** A field that can stand in a record of ASCII payload: no comma, no newline. */
  predicate PlainField(s: string) {
    IsAscii(s) && ',' !in s && '\n' !in s
  }

  function Flag(b: bool): string {
    if b then "1" else "0"
  }

  function MoveTokens(moves: seq<Move>): (tokens: seq<string>)
    ensures |tokens| == |moves|
  {
    seq(|moves|, i requires 0 <= i < |moves| => MoveToken(moves[i]))
  }

  lemma MoveTokenPlain(m: Move)
    ensures PlainField(MoveToken(m))
  {
    var parts := [IntText(m.step), IntText(m.x), IntText(m.y), Color(m.player)];
    IntTextAlphabet(m.step);
    IntTextAlphabet(m.x);
    IntTextAlphabet(m.y);
    JoinAscii(parts, '^');
    JoinAvoids(parts, '^', ',');
    JoinAvoids(parts, '^', '\n');
  }

  /** The tokens of a list of moves convert back to exactly those moves. */
  lemma ParseMoveTokens(moves: seq<Move>)
    ensures ParseMoves(MoveTokens(moves)) == Ok(moves)
  {
    var tokens := MoveTokens(moves);
    forall i | 0 <= i < |moves|
      ensures MoveFromStr(tokens[i]) == Ok(moves[i])
    {
      MoveTokenRoundTrip(moves[i]);
    }
    var r := ParseMoves(tokens);
    assert r.Ok?;
    forall i | 0 <= i < |moves|
      ensures r.value[i] == moves[i]
    {
      assert Ok(r.value[i]) == MoveFromStr(tokens[i]) == Ok(moves[i]);
    }
    assert |r.value| == |moves|;
    assert r.value == moves;
  }

  lemma MoveTokensPlain(moves: seq<Move>)
    ensures forall i :: 0 <= i < |moves| ==> PlainField(MoveTokens(moves)[i])
  {
    forall i | 0 <= i < |moves|
      ensures PlainField(MoveTokens(moves)[i])
    {
      MoveTokenPlain(moves[i]);
    }
  }

  lemma FlagPlain(b: bool)
    ensures PlainField(Flag(b))
  {
    assert Flag(b)[0] == (if b then '1' else '0');
  }

  lemma ColorPlain(p: Player)
    ensures PlainField(Color(p))
  {
    assert Color(p)[0] == (if p == Black then 'B' else 'W');
  }

  /** A record of plain fields under a plain keyword can travel in a frame. */
  lemma PlainRecordSendable(keyword: string, fields: seq<string>)
    requires PlainField(keyword)
    requires forall i :: 0 <= i < |fields| ==> PlainField(fields[i])
    ensures Sendable(Record(keyword, fields))
  {
    var content := Join(fields, ',');
    JoinAscii(fields, ',');
    JoinAvoids(fields, ',', '\n');
    AsciiConcat(keyword, ",");
    AsciiConcat(keyword + ",", content);
    assert Record(keyword, fields) == keyword + "," + content;
    AsciiSendable(Record(keyword, fields));
  }

  /** Loading a plain record: the fields come back, under the class the keyword is registered with. */
  lemma LoadPlainRecord(keyword: string, fields: seq<string>)
    requires PlainField(keyword)
    requires |fields| >= 1 && forall i :: 0 <= i < |fields| ==> PlainField(fields[i])
    ensures LoadCommand(FrameText(Record(keyword, fields)))
      == Ok(FACommand(KindOf(keyword), keyword, Join(fields, ','), fields))
  {
    PlainRecordSendable(keyword, fields);
    LoadRecord(keyword, fields);
  }

  /** The registered keywords are plain ASCII words. */
  lemma KeywordsPlain()
    ensures PlainField(STATUS) && PlainField(MOVE) && PlainField(RULE)
  {
  }

  /** The fields of a status record: the playing flag, the colour to move, then the moves. */
  function StatusFields(playing: bool, color: Player, moves: seq<Move>): seq<string> {
    [Flag(playing), Color(color)] + MoveTokens(moves)
  }

  /** A status record loads as FASTATUS, and its flag, its colour field and its moves read back. */
  lemma StatusRoundTrip(playing: bool, color: Player, moves: seq<Move>)
    ensures var r := LoadCommand(FrameText(Record(STATUS, StatusFields(playing, color, moves))));
      r.Ok? && r.value.kind == Status && r.value.data == StatusFields(playing, color, moves)
      && IsPlaying(r.value) == Ok(playing)
      && StatusColorIntended(r.value) == Ok(color)
      && StatusMoves(r.value) == Ok(moves)
  {
    var fields := StatusFields(playing, color, moves);
    var c := FACommand(Status, STATUS, Join(fields, ','), fields);
    StatusFieldsPlain(playing, color, moves);
    KeywordsPlain();
    LoadPlainRecord(STATUS, fields);
    assert LoadCommand(FrameText(Record(STATUS, fields))) == Ok(c);
    StatusRead(c, playing, color, moves);
  }

  lemma StatusFieldsPlain(playing: bool, color: Player, moves: seq<Move>)
    ensures var fields := StatusFields(playing, color, moves);
      |fields| >= 1 && forall i :: 0 <= i < |fields| ==> PlainField(fields[i])
  {
    var tokens := MoveTokens(moves);
    FlagPlain(playing);
    ColorPlain(color);
    MoveTokensPlain(moves);
    PlainPrefix([Flag(playing), Color(color)], tokens);
  }

  /** Plain fields stay plain when a list of them is put in front of another. */
  lemma PlainPrefix(head: seq<string>, tail: seq<string>)
    requires forall i :: 0 <= i < |head| ==> PlainField(head[i])
    requires forall i :: 0 <= i < |tail| ==> PlainField(tail[i])
    ensures forall i :: 0 <= i < |head + tail| ==> PlainField((head + tail)[i])
  {
    forall i | |head| <= i < |head + tail|
      ensures PlainField((head + tail)[i])
    {
      assert (head + tail)[i] == tail[i - |head|];
    }
  }

  lemma StatusRead(c: FACommand, playing: bool, color: Player, moves: seq<Move>)
    requires c.kind == Status && c.data == StatusFields(playing, color, moves)
    ensures IsPlaying(c) == Ok(playing)
    ensures StatusColorIntended(c) == Ok(color)
    ensures StatusColor(c) == Err(UnknownColor(Flag(playing)))
    ensures StatusMoves(c) == Ok(moves)
  {
    ParseMoveTokens(moves);
    assert c.data[2..] == MoveTokens(moves);
  }

  /** As written, the colour of every status record is refused: field 0 holds the playing flag
      "1" or "0", which is no colour. */
  lemma StatusColorRefused(playing: bool, color: Player, moves: seq<Move>)
    ensures var r := LoadCommand(FrameText(Record(STATUS, StatusFields(playing, color, moves))));
      r.Ok? && r.value.kind == Status
      && StatusColor(r.value) == Err(UnknownColor(Flag(playing)))
  {
    StatusRoundTrip(playing, color, moves);
    var r := LoadCommand(FrameText(Record(STATUS, StatusFields(playing, color, moves))));
    FlagRefused(r.value, playing);
  }

  /** A field that holds a playing flag is no colour. */
  lemma FlagRefused(c: FACommand, playing: bool)
    requires |c.data| >= 1 && c.data[0] == Flag(playing)
    ensures ColorField(c, 0) == Err(UnknownColor(Flag(playing)))
  {
  }

  /** The fields of a move notice: the AI flag, the AI's colour, and the move. */
  function NoticeFields(isAI: bool, ai: Player, move: Move): seq<string> {
    [Flag(isAI), Color(ai), MoveToken(move)]
  }

  /** A move notice loads as FAMOVE, and its flag, its colour and its move read back. */
  lemma MoveNoticeRoundTrip(isAI: bool, ai: Player, move: Move)
    ensures var r := LoadCommand(FrameText(Record(MOVE, NoticeFields(isAI, ai, move))));
      r.Ok? && r.value.kind == MoveNotice && r.value.data == NoticeFields(isAI, ai, move)
      && IsAI(r.value) == Ok(isAI)
      && AIPlayer(r.value) == Ok(ai)
      && NoticeMove(r.value) == Ok(move)
  {
    var fields := NoticeFields(isAI, ai, move);
    var c := FACommand(MoveNotice, MOVE, Join(fields, ','), fields);
    NoticeFieldsPlain(isAI, ai, move);
    KeywordsPlain();
    LoadPlainRecord(MOVE, fields);
    assert LoadCommand(FrameText(Record(MOVE, fields))) == Ok(c);
    NoticeRead(c, isAI, ai, move);
  }

  lemma NoticeFieldsPlain(isAI: bool, ai: Player, move: Move)
    ensures var fields := NoticeFields(isAI, ai, move);
      |fields| >= 1 && forall i :: 0 <= i < |fields| ==> PlainField(fields[i])
  {
    FlagPlain(isAI);
    ColorPlain(ai);
    MoveTokenPlain(move);
  }

  lemma NoticeRead(c: FACommand, isAI: bool, ai: Player, move: Move)
    requires c.kind == MoveNotice && c.data == NoticeFields(isAI, ai, move)
    ensures IsAI(c) == Ok(isAI)
    ensures AIPlayer(c) == Ok(ai)
    ensures NoticeMove(c) == Ok(move)
  {
    assert c.data[0] == Flag(isAI) && c.data[1] == Color(ai) && c.data[2] == MoveToken(move);
    assert Flag(isAI) == "1" <==> isAI;
    FromColorOfColor(ai);
    MoveTokenRoundTrip(move);
  }

  /** The game settings an FARULE record carries. */
  datatype Rules = Rules(size: int, mainTime: int, byoYomiTime: int, byoYomiCount: int,
                         komiHundredths: int, handicap: seq<Move>)

  function RuleFields(rules: Rules): seq<string> {
    [IntText(rules.size), IntText(rules.mainTime), IntText(rules.byoYomiTime),
     IntText(rules.byoYomiCount), IntText(rules.komiHundredths)] + MoveTokens(rules.handicap)
  }

  /** A rule record loads as FARULE, and every setting reads back. */
  lemma RuleRoundTrip(rules: Rules)
    ensures var r := LoadCommand(FrameText(Record(RULE, RuleFields(rules))));
      r.Ok? && r.value.kind == Rule && r.value.data == RuleFields(rules)
      && BoardSize(r.value) == Ok(rules.size)
      && MainTime(r.value) == Ok(rules.mainTime)
      && ByoYomiTime(r.value) == Ok(rules.byoYomiTime)
      && ByoYomiCount(r.value) == Ok(rules.byoYomiCount)
      && KomiHundredths(r.value) == Ok(rules.komiHundredths)
      && HandicapMoves(r.value) == Ok(rules.handicap)
  {
    var fields := RuleFields(rules);
    var c := FACommand(Rule, RULE, Join(fields, ','), fields);
    RuleFieldsPlain(rules);
    KeywordsPlain();
    LoadPlainRecord(RULE, fields);
    assert LoadCommand(FrameText(Record(RULE, fields))) == Ok(c);
    RuleRead(c, rules);
  }

  lemma RuleFieldsPlain(rules: Rules)
    ensures var fields := RuleFields(rules);
      |fields| >= 1 && forall i :: 0 <= i < |fields| ==> PlainField(fields[i])
  {
    var head := [IntText(rules.size), IntText(rules.mainTime), IntText(rules.byoYomiTime),
                 IntText(rules.byoYomiCount), IntText(rules.komiHundredths)];
    IntTextAlphabet(rules.size);
    IntTextAlphabet(rules.mainTime);
    IntTextAlphabet(rules.byoYomiTime);
    IntTextAlphabet(rules.byoYomiCount);
    IntTextAlphabet(rules.komiHundredths);
    MoveTokensPlain(rules.handicap);
    PlainPrefix(head, MoveTokens(rules.handicap));
  }

  lemma RuleRead(c: FACommand, rules: Rules)
    requires c.kind == Rule && c.data == RuleFields(rules)
    ensures BoardSize(c) == Ok(rules.size)
    ensures MainTime(c) == Ok(rules.mainTime)
    ensures ByoYomiTime(c) == Ok(rules.byoYomiTime)
    ensures ByoYomiCount(c) == Ok(rules.byoYomiCount)
    ensures KomiHundredths(c) == Ok(rules.komiHundredths)
    ensures HandicapMoves(c) == Ok(rules.handicap)
  {
    var numbers := [IntText(rules.size), IntText(rules.mainTime), IntText(rules.byoYomiTime),
                    IntText(rules.byoYomiCount), IntText(rules.komiHundredths)];
    var tokens := MoveTokens(rules.handicap);
    assert c.data == numbers + tokens;
    assert c.data[0] == numbers[0] && c.data[1] == numbers[1] && c.data[2] == numbers[2];
    assert c.data[3] == numbers[3] && c.data[4] == numbers[4];
    IntFieldText(c, 0, rules.size);
    IntFieldText(c, 1, rules.mainTime);
    IntFieldText(c, 2, rules.byoYomiTime);
    IntFieldText(c, 3, rules.byoYomiCount);
    IntFieldText(c, 4, rules.komiHundredths);
    HandicapRead(c, numbers, rules.handicap);
  }

  /** The moves after the five settings read back as the handicap stones. */
  lemma HandicapRead(c: FACommand, numbers: seq<string>, moves: seq<Move>)
    requires c.kind == Rule && |numbers| == 5 && c.data == numbers + MoveTokens(moves)
    ensures HandicapMoves(c) == Ok(moves)
  {
    ParseMoveTokens(moves);
    assert c.data[5..] == MoveTokens(moves);
  }

  /** A field holding the decimal text of an integer reads as that integer. */
  lemma IntFieldText(c: FACommand, i: nat, n: int)
    requires i < |c.data| && c.data[i] == IntText(n)
    ensures IntField(c, i) == Ok(n)
  {
    ParseIntText(n);
  }
}
