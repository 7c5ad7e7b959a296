/** The value types of the protocol: the two players and a move token `step^x^y^color`. */
module Values {
  import opened Outcomes
  import opened Text

  datatype Player = Black | White

  /** The one-letter code of a player, the enum's value. */
  function Color(p: Player): string {
    match p
    case Black => "B"
    case White => "W"
  }

  /** `Player.from_color`: "B" and "W" name the two players; every other text is refused. */
  function FromColor(color: string): (r: Result<Player>)
    ensures r.Ok? <==> color == "B" || color == "W"
    ensures r.Ok? ==> Color(r.value) == color
    ensures r.Err? ==> r.error == UnknownColor(color)
  {
    if color == Color(Black) then Ok(Black)
    else if color == Color(White) then Ok(White)
    else Err(UnknownColor(color))
  }

  lemma FromColorOfColor(p: Player)
    ensures FromColor(Color(p)) == Ok(p)
  {
  }

  datatype Move = Move(step: int, x: int, y: int, player: Player)

  /** `Move.from_str`: exactly four '^'-separated parts, three integers and a colour; the parts are
      converted left to right, so the first failing conversion names the error. */
  function MoveFromStr(token: string): (r: Result<Move>)
    ensures var parts := Split(token, '^');
      r.Ok? <==> |parts| == 4 && IsIntText(parts[0]) && IsIntText(parts[1]) && IsIntText(parts[2])
                 && (parts[3] == "B" || parts[3] == "W")
    ensures var parts := Split(token, '^');
      |parts| != 4 ==> r == Err(PartCount(|parts|))
    ensures var parts := Split(token, '^');
      r.Ok? ==> ParseInt(parts[0]) == Ok(r.value.step) && ParseInt(parts[1]) == Ok(r.value.x)
                && ParseInt(parts[2]) == Ok(r.value.y) && Color(r.value.player) == parts[3]
    ensures var parts := Split(token, '^');
      |parts| == 4 && r.Err? ==>
        r.error == (if !IsIntText(parts[0]) then NotAnInteger(parts[0])
                    else if !IsIntText(parts[1]) then NotAnInteger(parts[1])
                    else if !IsIntText(parts[2]) then NotAnInteger(parts[2])
                    else UnknownColor(parts[3]))
  {
    var parts := Split(token, '^');
    if |parts| != 4 then Err(PartCount(|parts|))
    else
      var step :- ParseInt(parts[0]);
      var x :- ParseInt(parts[1]);
      var y :- ParseInt(parts[2]);
      var player :- FromColor(parts[3]);
      Ok(Move(step, x, y, player))
  }

  /** The token a move is written as: the inverse of MoveFromStr. */
  function MoveToken(m: Move): string {
    Join([IntText(m.step), IntText(m.x), IntText(m.y), Color(m.player)], '^')
  }

  /** The token spelled out: `step^x^y^color`. */
  lemma MoveTokenText(m: Move)
    ensures MoveToken(m)
      == IntText(m.step) + "^" + IntText(m.x) + "^" + IntText(m.y) + "^" + Color(m.player)
  {
    var a, b, c, d := IntText(m.step), IntText(m.x), IntText(m.y), Color(m.player);
    assert Join([c, d], '^') == c + "^" + d by {
      assert [c, d][1..] == [d];
    }
    assert Join([b, c, d], '^') == b + "^" + Join([c, d], '^') by {
      assert [b, c, d][1..] == [c, d];
    }
    assert Join([a, b, c, d], '^') == a + "^" + Join([b, c, d], '^') by {
      assert [a, b, c, d][1..] == [b, c, d];
    }
  }

  /** Every move survives being written as a token and read back. */
  lemma MoveTokenRoundTrip(m: Move)
    ensures MoveFromStr(MoveToken(m)) == Ok(m)
  {
    var parts := [IntText(m.step), IntText(m.x), IntText(m.y), Color(m.player)];
    IntTextAlphabet(m.step);
    IntTextAlphabet(m.x);
    IntTextAlphabet(m.y);
    SplitJoin(parts, '^');
    ParseIntText(m.step);
    ParseIntText(m.x);
    ParseIntText(m.y);
    FromColorOfColor(m.player);
    assert ParseInt(parts[0]) == Ok(m.step) && ParseInt(parts[1]) == Ok(m.x);
    assert ParseInt(parts[2]) == Ok(m.y) && FromColor(parts[3]) == Ok(m.player);
  }
}
