/** Layout does not matter to the parser: a source text parses as its tokens do, wherever they stand. */
module SourceLayout {
  import opened Layout
  import opened Lexer
  import opened Parser
  import opened RoundTrip

  function TokensOf(ps: seq<Piece>): seq<Lexeme> {
    if ps == [] then [] else [ps[0].token] + TokensOf(ps[1..])
  }

  lemma {:induction false} PlacedTokens(before: string, ps: seq<Piece>, end: string)
    ensures Placed(before, ps, end) != [] && Strip(Placed(before, ps, end)) == TokensOf(ps) + [Lexeme(EOF, "")]
    decreases |ps|
  {
    if ps != [] {
      var here := before + ps[0].gap;
      var rest := Placed(here + ps[0].text, ps[1..], end);
      PlacedTokens(here + ps[0].text, ps[1..], end);
      assert ([At(ps[0].token, here)] + rest)[1..] == rest;
    }
  }

  /** What a well-laid text parses to depends on its tokens alone, and an error is reported at the line and column
      of the token it was raised at. */
  lemma LayoutParses(ps: seq<Piece>, end: string, comment: string)
    requires WellLaid(ps, end + comment) && IsGap(end) && OpenComment(comment)
    ensures var toks := Placed("", ps, end);
            ParseSource(TextOf(ps, end + comment)) ==
              match ParseProgram(TokensOf(ps) + [Lexeme(EOF, "")])
              case Ok(program, _) => ParseResult.Parsed(program)
              case Err(code, left) =>
                var i := if 1 <= left <= |toks| then |toks| - left else |toks| - 1;
                assert toks != [] by { PlacedTokens("", ps, end); }
                ParseFailure(code, toks[i].line, toks[i].col)
  {
    hide LexFrom, WellLaid, IsGap, OpenComment, Placed, TextOf, ParseProgram, Strip;
    LayoutLexes("", ps, end, comment);
    PlacedTokens("", ps, end);
  }

  /** So any layout of the tokens of a well-formed program parses to that program. */
  lemma AnyLayout(p: Program, semi: bool, ps: seq<Piece>, end: string, comment: string)
    requires GoodProgram(p) && TokensOf(ps) == PrintProgram(p, semi)
    requires WellLaid(ps, end + comment) && IsGap(end) && OpenComment(comment)
    ensures ParseSource(TextOf(ps, end + comment)) == ParseResult.Parsed(p)
  {
    hide WellLaid, IsGap, OpenComment, TextOf, ParseProgram, PrintProgram, GoodProgram, ParseSource;
    LayoutParses(ps, end, comment);
    ProgramParses(p, semi);
  }
}
