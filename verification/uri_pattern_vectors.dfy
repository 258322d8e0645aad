/**
 * The assertions of `UriPatternTest`, stated about the model: each template
 * the test compiles is read into tokens, and the properties the test checks
 * (regex text, literal count, group names, matches, name-blind equality,
 * path) are proved about those tokens.
 */
module UriPatternVectors {
  import opened Wrappers
  import opened UriTemplate
  import opened PathMatching
  import PercentCoding

  // ----- the templates, as tokens ----------------------------------------------------

  const FRUIT: seq<Token> := [Lit("fruit")]
  const SLASH_FRUIT: seq<Token> := [Slash, Lit("fruit")]
  const FRUIT_SLASH: seq<Token> := [Lit("fruit"), Slash]
  const SLASH_FRUIT_SLASH: seq<Token> := [Slash, Lit("fruit"), Slash]
  const FRUIT_BITS: seq<Token> := [Lit("fruit bits")]
  const FRUIT_NAME: seq<Token> := [Lit("fruit"), Slash, Var("name", None)]
  const SLASH_FRUIT_NAME: seq<Token> := [Slash, Lit("fruit"), Slash, Var("name", None)]
  const FRUIT_VERSION: seq<Token> := [Lit("fruit"), Slash, Var("version", Some("v[12]"))]
  const SLASH_FRUIT_VERSION: seq<Token> := [Slash, Lit("fruit"), Slash, Var("version", Some("v[12]"))]
  const FRUIT_VERSION_NAME: seq<Token> :=
    [Lit("fruit"), Slash, Var("version", Some("v[12]")), Slash, Var("name", None), Slash, Lit("eat")]
  const SLASH_FRUIT_VERSION_NAME: seq<Token> :=
    [Slash, Lit("fruit"), Slash, Var("version", Some("v[12]")), Slash, Var("name", None), Slash, Lit("eat")]
  const PEOPLE: seq<Token> :=
    [Lit("people"), Slash, Var("familyName", None), Lit("-"), Var("givenName", None)]
  const USER: seq<Token> :=
    [Slash, Lit("user"), Slash, Var("user", None), Slash, Lit("umm"), Slash, Var("user", None)]
  const SLASH_ANY_TEXT: seq<Token> := [Slash, Lit(".*")]
  const FRUIT_ID: seq<Token> := [Slash, Lit("fruit"), Slash, Var("id", None)]
  const FRUIT_ID_ANY: seq<Token> := [Slash, Lit("fruit"), Slash, Var("id", Some(".*"))]
  const FRUIT_NAME_ANY: seq<Token> := [Slash, Lit("fruit"), Slash, Var("name", Some(".*"))]
  const FRUIT_ID_DIGITS: seq<Token> := [Slash, Lit("fruit"), Slash, Var("id", Some("[0-9]*"))]
  const FRUIT_IDS: seq<Token> :=
    [Slash, Lit("fruit"), Slash, Var("id", Some("[0-9]*")), Slash, Lit("b"), Slash, Var("id2", None),
     Slash, Lit("c"), Slash, Var("ha", None)]

  // ----- spelling piece lists of a fixed length ----------------------------------------

  lemma Spell1(a: Piece)
    ensures Spell([a]) == PieceText(a) + ""
  {
    assert [a][1..] == [];
    assert Spell([a]) == PieceText(a) + Spell([]);
  }

  lemma Spell2(a: Piece, b: Piece)
    ensures Spell([a, b]) == PieceText(a) + (PieceText(b) + "")
  {
    assert [b][1..] == [];
    assert Spell([b]) == PieceText(b) + Spell([]);
    assert [a, b][1..] == [b];
    assert Spell([a, b]) == PieceText(a) + Spell([b]);
  }

  lemma Spell3(a: Piece, b: Piece, c: Piece)
    ensures Spell([a, b, c]) == PieceText(a) + (PieceText(b) + (PieceText(c) + ""))
  {
    assert [c][1..] == [];
    assert Spell([c]) == PieceText(c) + Spell([]);
    assert [b, c][1..] == [c];
    assert Spell([b, c]) == PieceText(b) + Spell([c]);
    assert [a, b, c][1..] == [b, c];
    assert Spell([a, b, c]) == PieceText(a) + Spell([b, c]);
  }

  lemma Spell4(a: Piece, b: Piece, c: Piece, d: Piece)
    ensures Spell([a, b, c, d]) == PieceText(a) + (PieceText(b) + (PieceText(c) + (PieceText(d) + "")))
  {
    assert [d][1..] == [];
    assert Spell([d]) == PieceText(d) + Spell([]);
    assert [c, d][1..] == [d];
    assert Spell([c, d]) == PieceText(c) + Spell([d]);
    assert [b, c, d][1..] == [c, d];
    assert Spell([b, c, d]) == PieceText(b) + Spell([c, d]);
    assert [a, b, c, d][1..] == [b, c, d];
    assert Spell([a, b, c, d]) == PieceText(a) + Spell([b, c, d]);
  }

  lemma Spell5(a: Piece, b: Piece, c: Piece, d: Piece, e: Piece)
    ensures Spell([a, b, c, d, e]) == PieceText(a) + (PieceText(b) + (PieceText(c) + (PieceText(d) + (PieceText(e) + ""))))
  {
    assert [e][1..] == [];
    assert Spell([e]) == PieceText(e) + Spell([]);
    assert [d, e][1..] == [e];
    assert Spell([d, e]) == PieceText(d) + Spell([e]);
    assert [c, d, e][1..] == [d, e];
    assert Spell([c, d, e]) == PieceText(c) + Spell([d, e]);
    assert [b, c, d, e][1..] == [c, d, e];
    assert Spell([b, c, d, e]) == PieceText(b) + Spell([c, d, e]);
    assert [a, b, c, d, e][1..] == [b, c, d, e];
    assert Spell([a, b, c, d, e]) == PieceText(a) + Spell([b, c, d, e]);
  }

  /** Five valid pieces, no two literals adjacent, form a valid spelling. */
  lemma PiecesOk5(a: Piece, b: Piece, c: Piece, d: Piece, e: Piece)
    requires PieceOk(a) && PieceOk(b) && PieceOk(c) && PieceOk(d) && PieceOk(e)
    requires !(a.PLit? && b.PLit?) && !(b.PLit? && c.PLit?) && !(c.PLit? && d.PLit?) && !(d.PLit? && e.PLit?)
    ensures PiecesOk([a, b, c, d, e])
  {
    var ps := [a, b, c, d, e];
    assert ps[0] == a && ps[1] == b && ps[2] == c && ps[3] == d && ps[4] == e;
  }

  lemma SpelledTokens(ps: seq<Piece>, t: string, ts: seq<Token>)
    requires PiecesOk(ps) && Spell(ps) == t && PieceTokens(ps) == ts
    ensures Tokenize(t) == Success(ts)
  {
    SpellTokenize(ps);
  }

  function FruitPieces(): seq<Piece> {
    [PLit("fruit")]
  }

  lemma FruitPiecesOk()
    ensures PiecesOk(FruitPieces())
  {
  }

  lemma FruitPieceTokens()
    ensures PieceTokens(FruitPieces()) == FRUIT
  {
    PieceTokensEach(FruitPieces());
  }

  lemma FruitSpelling()
    ensures Spell(FruitPieces()) == "fruit"
  {
    Spell1(PLit("fruit"));
    FruitJoin();
  }

  lemma FruitJoin()
    ensures "fruit" + "" == "fruit"
  {
  }

  lemma FruitTokens()
    ensures Tokenize("fruit") == Success(FRUIT)
  {
    FruitPiecesOk();
    FruitPieceTokens();
    FruitSpelling();
    SpelledTokens(FruitPieces(), "fruit", FRUIT);
  }

  lemma ReadFruit()
    ensures UriTemplateToRegex("fruit") == Success(UriPattern(FRUIT))
  {
    FruitTokens();
  }

  function SlashFruitPieces(): seq<Piece> {
    [PSlash, PLit("fruit")]
  }

  lemma SlashFruitPiecesOk()
    ensures PiecesOk(SlashFruitPieces())
  {
  }

  lemma SlashFruitPieceTokens()
    ensures PieceTokens(SlashFruitPieces()) == SLASH_FRUIT
  {
    PieceTokensEach(SlashFruitPieces());
  }

  lemma SlashFruitSpelling()
    ensures Spell(SlashFruitPieces()) == "/fruit"
  {
    Spell2(PSlash, PLit("fruit"));
    SlashFruitJoin();
  }

  lemma SlashFruitJoin()
    ensures "/" + ("fruit" + "") == "/fruit"
  {
  }

  lemma SlashFruitTokens()
    ensures Tokenize("/fruit") == Success(SLASH_FRUIT)
  {
    SlashFruitPiecesOk();
    SlashFruitPieceTokens();
    SlashFruitSpelling();
    SpelledTokens(SlashFruitPieces(), "/fruit", SLASH_FRUIT);
  }

  lemma ReadSlashFruit()
    ensures UriTemplateToRegex("/fruit") == Success(UriPattern(SLASH_FRUIT))
  {
    SlashFruitTokens();
  }

  function FruitSlashPieces(): seq<Piece> {
    [PLit("fruit"), PSlash]
  }

  lemma FruitSlashPiecesOk()
    ensures PiecesOk(FruitSlashPieces())
  {
  }

  lemma FruitSlashPieceTokens()
    ensures PieceTokens(FruitSlashPieces()) == FRUIT_SLASH
  {
    PieceTokensEach(FruitSlashPieces());
  }

  lemma FruitSlashSpelling()
    ensures Spell(FruitSlashPieces()) == "fruit/"
  {
    Spell2(PLit("fruit"), PSlash);
    FruitSlashJoin();
  }

  lemma FruitSlashJoin()
    ensures "fruit" + ("/" + "") == "fruit/"
  {
  }

  lemma FruitSlashTokens()
    ensures Tokenize("fruit/") == Success(FRUIT_SLASH)
  {
    FruitSlashPiecesOk();
    FruitSlashPieceTokens();
    FruitSlashSpelling();
    SpelledTokens(FruitSlashPieces(), "fruit/", FRUIT_SLASH);
  }

  lemma ReadFruitSlash()
    ensures UriTemplateToRegex("fruit/") == Success(UriPattern(FRUIT_SLASH))
  {
    FruitSlashTokens();
  }

  function SlashFruitSlashPieces(): seq<Piece> {
    [PSlash, PLit("fruit"), PSlash]
  }

  lemma SlashFruitSlashPiecesOk()
    ensures PiecesOk(SlashFruitSlashPieces())
  {
  }

  lemma SlashFruitSlashPieceTokens()
    ensures PieceTokens(SlashFruitSlashPieces()) == SLASH_FRUIT_SLASH
  {
    PieceTokensEach(SlashFruitSlashPieces());
  }

  lemma SlashFruitSlashSpelling()
    ensures Spell(SlashFruitSlashPieces()) == "/fruit/"
  {
    Spell3(PSlash, PLit("fruit"), PSlash);
    SlashFruitSlashJoin();
  }

  lemma SlashFruitSlashJoin()
    ensures "/" + ("fruit" + ("/" + "")) == "/fruit/"
  {
  }

  lemma SlashFruitSlashTokens()
    ensures Tokenize("/fruit/") == Success(SLASH_FRUIT_SLASH)
  {
    SlashFruitSlashPiecesOk();
    SlashFruitSlashPieceTokens();
    SlashFruitSlashSpelling();
    SpelledTokens(SlashFruitSlashPieces(), "/fruit/", SLASH_FRUIT_SLASH);
  }

  lemma ReadSlashFruitSlash()
    ensures UriTemplateToRegex("/fruit/") == Success(UriPattern(SLASH_FRUIT_SLASH))
  {
    SlashFruitSlashTokens();
  }

  function FruitBitsPieces(): seq<Piece> {
    [PLit("fruit bits")]
  }

  lemma FruitBitsPiecesOk()
    ensures PiecesOk(FruitBitsPieces())
  {
  }

  lemma FruitBitsPieceTokens()
    ensures PieceTokens(FruitBitsPieces()) == FRUIT_BITS
  {
    PieceTokensEach(FruitBitsPieces());
  }

  lemma FruitBitsSpelling()
    ensures Spell(FruitBitsPieces()) == "fruit bits"
  {
    Spell1(PLit("fruit bits"));
    FruitBitsJoin();
  }

  lemma FruitBitsJoin()
    ensures "fruit bits" + "" == "fruit bits"
  {
  }

  lemma FruitBitsTokens()
    ensures Tokenize("fruit bits") == Success(FRUIT_BITS)
  {
    FruitBitsPiecesOk();
    FruitBitsPieceTokens();
    FruitBitsSpelling();
    SpelledTokens(FruitBitsPieces(), "fruit bits", FRUIT_BITS);
  }

  lemma ReadFruitBits()
    ensures UriTemplateToRegex("fruit bits") == Success(UriPattern(FRUIT_BITS))
  {
    FruitBitsTokens();
  }

  function FruitNamePieces(): seq<Piece> {
    [PLit("fruit"), PSlash, PVar("", "name", "")]
  }

  lemma FruitNamePiecesOk()
    ensures PiecesOk(FruitNamePieces())
  {
  }

  lemma FruitNamePieceTokens()
    ensures PieceTokens(FruitNamePieces()) == FRUIT_NAME
  {
    PieceTokensEach(FruitNamePieces());
  }

  lemma FruitNamePlaceholderTexts()
    ensures PieceText(PVar("", "name", "")) == "{name}"
  {
  }

  lemma FruitNameSpelling()
    ensures Spell(FruitNamePieces()) == "fruit/{name}"
  {
    Spell3(PLit("fruit"), PSlash, PVar("", "name", ""));
    FruitNamePlaceholderTexts();
    FruitNameJoin();
  }

  lemma FruitNameJoin()
    ensures "fruit" + ("/" + ("{name}" + "")) == "fruit/{name}"
  {
  }

  lemma FruitNameTokens()
    ensures Tokenize("fruit/{name}") == Success(FRUIT_NAME)
  {
    FruitNamePiecesOk();
    FruitNamePieceTokens();
    FruitNameSpelling();
    SpelledTokens(FruitNamePieces(), "fruit/{name}", FRUIT_NAME);
  }

  lemma ReadFruitName()
    ensures UriTemplateToRegex("fruit/{name}") == Success(UriPattern(FRUIT_NAME))
  {
    FruitNameTokens();
  }

  function SlashFruitNamePieces(): seq<Piece> {
    [PSlash, PLit("fruit"), PSlash, PVar("", "name", "")]
  }

  lemma SlashFruitNamePiecesOk()
    ensures PiecesOk(SlashFruitNamePieces())
  {
  }

  lemma SlashFruitNamePieceTokens()
    ensures PieceTokens(SlashFruitNamePieces()) == SLASH_FRUIT_NAME
  {
    PieceTokensEach(SlashFruitNamePieces());
  }

  lemma SlashFruitNamePlaceholderTexts()
    ensures PieceText(PVar("", "name", "")) == "{name}"
  {
  }

  lemma SlashFruitNameSpelling()
    ensures Spell(SlashFruitNamePieces()) == "/fruit/{name}"
  {
    Spell4(PSlash, PLit("fruit"), PSlash, PVar("", "name", ""));
    SlashFruitNamePlaceholderTexts();
    SlashFruitNameJoin();
  }

  lemma SlashFruitNameJoin()
    ensures "/" + ("fruit" + ("/" + ("{name}" + ""))) == "/fruit/{name}"
  {
  }

  lemma SlashFruitNameTokens()
    ensures Tokenize("/fruit/{name}") == Success(SLASH_FRUIT_NAME)
  {
    SlashFruitNamePiecesOk();
    SlashFruitNamePieceTokens();
    SlashFruitNameSpelling();
    SpelledTokens(SlashFruitNamePieces(), "/fruit/{name}", SLASH_FRUIT_NAME);
  }

  lemma ReadSlashFruitName()
    ensures UriTemplateToRegex("/fruit/{name}") == Success(UriPattern(SLASH_FRUIT_NAME))
  {
    SlashFruitNameTokens();
  }

  function FruitVersionSpacedPieces(): seq<Piece> {
    [PLit("fruit"), PSlash, PInline("", "version", " ", " ", "v[12]", "")]
  }

  lemma FruitVersionSpacedPiecesOk()
    ensures PiecesOk(FruitVersionSpacedPieces())
  {
  }

  lemma FruitVersionSpacedPieceTokens()
    ensures PieceTokens(FruitVersionSpacedPieces()) == FRUIT_VERSION
  {
    PieceTokensEach(FruitVersionSpacedPieces());
  }

  lemma FruitVersionSpacedPlaceholderTexts()
    ensures PieceText(PInline("", "version", " ", " ", "v[12]", "")) == "{version : v[12]}"
  {
  }

  lemma FruitVersionSpacedSpelling()
    ensures Spell(FruitVersionSpacedPieces()) == "fruit/{version : v[12]}"
  {
    Spell3(PLit("fruit"), PSlash, PInline("", "version", " ", " ", "v[12]", ""));
    FruitVersionSpacedPlaceholderTexts();
    FruitVersionSpacedJoin();
  }

  lemma FruitVersionSpacedJoin()
    ensures "fruit" + ("/" + ("{version : v[12]}" + "")) == "fruit/{version : v[12]}"
  {
  }

  lemma FruitVersionSpacedTokens()
    ensures Tokenize("fruit/{version : v[12]}") == Success(FRUIT_VERSION)
  {
    FruitVersionSpacedPiecesOk();
    FruitVersionSpacedPieceTokens();
    FruitVersionSpacedSpelling();
    SpelledTokens(FruitVersionSpacedPieces(), "fruit/{version : v[12]}", FRUIT_VERSION);
  }

  lemma ReadFruitVersionSpaced()
    ensures UriTemplateToRegex("fruit/{version : v[12]}") == Success(UriPattern(FRUIT_VERSION))
  {
    FruitVersionSpacedTokens();
  }

  function SlashFruitVersionSpacedPieces(): seq<Piece> {
    [PSlash, PLit("fruit"), PSlash, PInline("", "version", " ", " ", "v[12]", "")]
  }

  lemma SlashFruitVersionSpacedPiecesOk()
    ensures PiecesOk(SlashFruitVersionSpacedPieces())
  {
  }

  lemma SlashFruitVersionSpacedPieceTokens()
    ensures PieceTokens(SlashFruitVersionSpacedPieces()) == SLASH_FRUIT_VERSION
  {
    PieceTokensEach(SlashFruitVersionSpacedPieces());
  }

  lemma SlashFruitVersionSpacedPlaceholderTexts()
    ensures PieceText(PInline("", "version", " ", " ", "v[12]", "")) == "{version : v[12]}"
  {
  }

  lemma SlashFruitVersionSpacedSpelling()
    ensures Spell(SlashFruitVersionSpacedPieces()) == "/fruit/{version : v[12]}"
  {
    Spell4(PSlash, PLit("fruit"), PSlash, PInline("", "version", " ", " ", "v[12]", ""));
    SlashFruitVersionSpacedPlaceholderTexts();
    SlashFruitVersionSpacedJoin();
  }

  lemma SlashFruitVersionSpacedJoin()
    ensures "/" + ("fruit" + ("/" + ("{version : v[12]}" + ""))) == "/fruit/{version : v[12]}"
  {
  }

  lemma SlashFruitVersionSpacedTokens()
    ensures Tokenize("/fruit/{version : v[12]}") == Success(SLASH_FRUIT_VERSION)
  {
    SlashFruitVersionSpacedPiecesOk();
    SlashFruitVersionSpacedPieceTokens();
    SlashFruitVersionSpacedSpelling();
    SpelledTokens(SlashFruitVersionSpacedPieces(), "/fruit/{version : v[12]}", SLASH_FRUIT_VERSION);
  }

  lemma ReadSlashFruitVersionSpaced()
    ensures UriTemplateToRegex("/fruit/{version : v[12]}") == Success(UriPattern(SLASH_FRUIT_VERSION))
  {
    SlashFruitVersionSpacedTokens();
  }

  function FruitVersionTightPieces(): seq<Piece> {
    [PLit("fruit"), PSlash, PInline("", "version", "", "", "v[12]", "")]
  }

  lemma FruitVersionTightPiecesOk()
    ensures PiecesOk(FruitVersionTightPieces())
  {
  }

  lemma FruitVersionTightPieceTokens()
    ensures PieceTokens(FruitVersionTightPieces()) == FRUIT_VERSION
  {
    PieceTokensEach(FruitVersionTightPieces());
  }

  lemma FruitVersionTightPlaceholderTexts()
    ensures PieceText(PInline("", "version", "", "", "v[12]", "")) == "{version:v[12]}"
  {
  }

  lemma FruitVersionTightSpelling()
    ensures Spell(FruitVersionTightPieces()) == "fruit/{version:v[12]}"
  {
    Spell3(PLit("fruit"), PSlash, PInline("", "version", "", "", "v[12]", ""));
    FruitVersionTightPlaceholderTexts();
    FruitVersionTightJoin();
  }

  lemma FruitVersionTightJoin()
    ensures "fruit" + ("/" + ("{version:v[12]}" + "")) == "fruit/{version:v[12]}"
  {
  }

  lemma FruitVersionTightTokens()
    ensures Tokenize("fruit/{version:v[12]}") == Success(FRUIT_VERSION)
  {
    FruitVersionTightPiecesOk();
    FruitVersionTightPieceTokens();
    FruitVersionTightSpelling();
    SpelledTokens(FruitVersionTightPieces(), "fruit/{version:v[12]}", FRUIT_VERSION);
  }

  lemma ReadFruitVersionTight()
    ensures UriTemplateToRegex("fruit/{version:v[12]}") == Success(UriPattern(FRUIT_VERSION))
  {
    FruitVersionTightTokens();
  }

  function SlashFruitVersionTightPieces(): seq<Piece> {
    [PSlash, PLit("fruit"), PSlash, PInline("", "version", "", "", "v[12]", "")]
  }

  lemma SlashFruitVersionTightPiecesOk()
    ensures PiecesOk(SlashFruitVersionTightPieces())
  {
  }

  lemma SlashFruitVersionTightPieceTokens()
    ensures PieceTokens(SlashFruitVersionTightPieces()) == SLASH_FRUIT_VERSION
  {
    PieceTokensEach(SlashFruitVersionTightPieces());
  }

  lemma SlashFruitVersionTightPlaceholderTexts()
    ensures PieceText(PInline("", "version", "", "", "v[12]", "")) == "{version:v[12]}"
  {
  }

  lemma SlashFruitVersionTightSpelling()
    ensures Spell(SlashFruitVersionTightPieces()) == "/fruit/{version:v[12]}"
  {
    Spell4(PSlash, PLit("fruit"), PSlash, PInline("", "version", "", "", "v[12]", ""));
    SlashFruitVersionTightPlaceholderTexts();
    SlashFruitVersionTightJoin();
  }

  lemma SlashFruitVersionTightJoin()
    ensures "/" + ("fruit" + ("/" + ("{version:v[12]}" + ""))) == "/fruit/{version:v[12]}"
  {
  }

  lemma SlashFruitVersionTightTokens()
    ensures Tokenize("/fruit/{version:v[12]}") == Success(SLASH_FRUIT_VERSION)
  {
    SlashFruitVersionTightPiecesOk();
    SlashFruitVersionTightPieceTokens();
    SlashFruitVersionTightSpelling();
    SpelledTokens(SlashFruitVersionTightPieces(), "/fruit/{version:v[12]}", SLASH_FRUIT_VERSION);
  }

  lemma ReadSlashFruitVersionTight()
    ensures UriTemplateToRegex("/fruit/{version:v[12]}") == Success(UriPattern(SLASH_FRUIT_VERSION))
  {
    SlashFruitVersionTightTokens();
  }

  function FruitVersionHeadPieces(): seq<Piece> {
    [PLit("fruit"), PSlash, PInline("", "version", "", " ", "v[12]", "")]
  }

  lemma FruitVersionHeadPiecesOk()
    ensures PiecesOk(FruitVersionHeadPieces())
  {
  }

  lemma FruitVersionHeadPieceTokens()
    ensures PieceTokens(FruitVersionHeadPieces()) == FRUIT_VERSION
  {
    PieceTokensEach(FruitVersionHeadPieces());
  }

  lemma FruitVersionHeadPlaceholderTexts()
    ensures PieceText(PInline("", "version", "", " ", "v[12]", "")) == "{version: v[12]}"
  {
  }

  lemma FruitVersionHeadSpelling()
    ensures Spell(FruitVersionHeadPieces()) == "fruit/{version: v[12]}"
  {
    Spell3(PLit("fruit"), PSlash, PInline("", "version", "", " ", "v[12]", ""));
    FruitVersionHeadPlaceholderTexts();
    FruitVersionHeadJoin();
  }

  lemma FruitVersionHeadJoin()
    ensures "fruit" + ("/" + ("{version: v[12]}" + "")) == "fruit/{version: v[12]}"
  {
  }

  lemma FruitVersionHeadTokens()
    ensures Tokenize("fruit/{version: v[12]}") == Success(FRUIT_VERSION)
  {
    FruitVersionHeadPiecesOk();
    FruitVersionHeadPieceTokens();
    FruitVersionHeadSpelling();
    SpelledTokens(FruitVersionHeadPieces(), "fruit/{version: v[12]}", FRUIT_VERSION);
  }

  function SlashFruitVersionHeadPieces(): seq<Piece> {
    [PSlash, PLit("fruit"), PSlash, PInline("", "version", "", " ", "v[12]", "")]
  }

  lemma SlashFruitVersionHeadPiecesOk()
    ensures PiecesOk(SlashFruitVersionHeadPieces())
  {
  }

  lemma SlashFruitVersionHeadPieceTokens()
    ensures PieceTokens(SlashFruitVersionHeadPieces()) == SLASH_FRUIT_VERSION
  {
    PieceTokensEach(SlashFruitVersionHeadPieces());
  }

  lemma SlashFruitVersionHeadPlaceholderTexts()
    ensures PieceText(PInline("", "version", "", " ", "v[12]", "")) == "{version: v[12]}"
  {
  }

  lemma SlashFruitVersionHeadSpelling()
    ensures Spell(SlashFruitVersionHeadPieces()) == "/fruit/{version: v[12]}"
  {
    Spell4(PSlash, PLit("fruit"), PSlash, PInline("", "version", "", " ", "v[12]", ""));
    SlashFruitVersionHeadPlaceholderTexts();
    SlashFruitVersionHeadJoin();
  }

  lemma SlashFruitVersionHeadJoin()
    ensures "/" + ("fruit" + ("/" + ("{version: v[12]}" + ""))) == "/fruit/{version: v[12]}"
  {
  }

  lemma SlashFruitVersionHeadTokens()
    ensures Tokenize("/fruit/{version: v[12]}") == Success(SLASH_FRUIT_VERSION)
  {
    SlashFruitVersionHeadPiecesOk();
    SlashFruitVersionHeadPieceTokens();
    SlashFruitVersionHeadSpelling();
    SpelledTokens(SlashFruitVersionHeadPieces(), "/fruit/{version: v[12]}", SLASH_FRUIT_VERSION);
  }

  function NameEatPieces(): seq<Piece> {
    [PSlash, PVar("", "name", ""), PSlash, PLit("eat")]
  }

  lemma NameEatPiecesOk()
    ensures PiecesOk(NameEatPieces())
  {
  }

  lemma NameEatPieceTokens()
    ensures PieceTokens(NameEatPieces()) == [Slash, Var("name", None), Slash, Lit("eat")]
  {
    PieceTokensEach(NameEatPieces());
  }

  lemma NameEatPlaceholderTexts()
    ensures PieceText(PVar("", "name", "")) == "{name}"
  {
  }

  lemma NameEatSpelling()
    ensures Spell(NameEatPieces()) == "/{name}/eat"
  {
    Spell4(PSlash, PVar("", "name", ""), PSlash, PLit("eat"));
    NameEatPlaceholderTexts();
    NameEatJoin();
  }

  lemma NameEatJoin()
    ensures "/" + ("{name}" + ("/" + ("eat" + ""))) == "/{name}/eat"
  {
  }

  lemma NameEatTokens()
    ensures Tokenize("/{name}/eat") == Success([Slash, Var("name", None), Slash, Lit("eat")])
  {
    NameEatPiecesOk();
    NameEatPieceTokens();
    NameEatSpelling();
    SpelledTokens(NameEatPieces(), "/{name}/eat", [Slash, Var("name", None), Slash, Lit("eat")]);
  }

  function PeoplePieces(): seq<Piece> {
    [PLit("people"), PSlash, PVar("", "familyName", ""), PLit("-"), PVar("", "givenName", "")]
  }

  lemma PeoplePiecesOk()
    ensures PiecesOk(PeoplePieces())
  {
    PeopleLitOk();
    FamilyNameOk();
    DashLitOk();
    GivenNameOk();
    PiecesOk5(PLit("people"), PSlash, PVar("", "familyName", ""), PLit("-"), PVar("", "givenName", ""));
  }

  lemma PeopleLitOk()
    ensures PieceOk(PLit("people"))
  {
  }

  lemma FamilyNameOk()
    ensures PieceOk(PVar("", "familyName", ""))
  {
  }

  lemma DashLitOk()
    ensures PieceOk(PLit("-"))
  {
  }

  lemma GivenNameOk()
    ensures PieceOk(PVar("", "givenName", ""))
  {
  }

  lemma PeoplePieceTokens()
    ensures PieceTokens(PeoplePieces()) == PEOPLE
  {
    PieceTokensEach(PeoplePieces());
  }

  lemma PeoplePlaceholderTexts()
    ensures PieceText(PVar("", "familyName", "")) == "{familyName}"
    ensures PieceText(PVar("", "givenName", "")) == "{givenName}"
  {
    FamilyNameText();
    GivenNameText();
  }

  lemma FamilyNameText()
    ensures PieceText(PVar("", "familyName", "")) == "{familyName}"
  {
  }

  lemma GivenNameText()
    ensures PieceText(PVar("", "givenName", "")) == "{givenName}"
  {
  }

  lemma PeopleSpelling()
    ensures Spell(PeoplePieces()) == "people/{familyName}-{givenName}"
  {
    Spell5(PLit("people"), PSlash, PVar("", "familyName", ""), PLit("-"), PVar("", "givenName", ""));
    PeoplePlaceholderTexts();
    PeopleJoin();
  }

  lemma PeopleJoin()
    ensures "people" + ("/" + ("{familyName}" + ("-" + ("{givenName}" + "")))) == "people/{familyName}-{givenName}"
  {
  }

  lemma PeopleTokens()
    ensures Tokenize("people/{familyName}-{givenName}") == Success(PEOPLE)
  {
    PeoplePiecesOk();
    PeoplePieceTokens();
    PeopleSpelling();
    SpelledTokens(PeoplePieces(), "people/{familyName}-{givenName}", PEOPLE);
  }

  lemma ReadPeople()
    ensures UriTemplateToRegex("people/{familyName}-{givenName}") == Success(UriPattern(PEOPLE))
  {
    PeopleTokens();
  }

  function UserHeadPieces(): seq<Piece> {
    [PSlash, PLit("user"), PSlash, PVar(" ", "user", "")]
  }

  lemma UserHeadPiecesOk()
    ensures PiecesOk(UserHeadPieces())
  {
  }

  lemma UserHeadPieceTokens()
    ensures PieceTokens(UserHeadPieces()) == [Slash, Lit("user"), Slash, Var("user", None)]
  {
    PieceTokensEach(UserHeadPieces());
  }

  lemma UserHeadPlaceholderTexts()
    ensures PieceText(PVar(" ", "user", "")) == "{ user}"
  {
  }

  lemma UserHeadSpelling()
    ensures Spell(UserHeadPieces()) == "/user/{ user}"
  {
    Spell4(PSlash, PLit("user"), PSlash, PVar(" ", "user", ""));
    UserHeadPlaceholderTexts();
    UserHeadJoin();
  }

  lemma UserHeadJoin()
    ensures "/" + ("user" + ("/" + ("{ user}" + ""))) == "/user/{ user}"
  {
  }

  lemma UserHeadTokens()
    ensures Tokenize("/user/{ user}") == Success([Slash, Lit("user"), Slash, Var("user", None)])
  {
    UserHeadPiecesOk();
    UserHeadPieceTokens();
    UserHeadSpelling();
    SpelledTokens(UserHeadPieces(), "/user/{ user}", [Slash, Lit("user"), Slash, Var("user", None)]);
  }

  function UserTailPieces(): seq<Piece> {
    [PSlash, PLit("umm"), PSlash, PVar(" ", "user", " ")]
  }

  lemma UserTailPiecesOk()
    ensures PiecesOk(UserTailPieces())
  {
  }

  lemma UserTailPieceTokens()
    ensures PieceTokens(UserTailPieces()) == [Slash, Lit("umm"), Slash, Var("user", None)]
  {
    assert PieceToken(PVar(" ", "user", " ")) == Var("user", None);
  }

  lemma UserTailPlaceholderTexts()
    ensures PieceText(PVar(" ", "user", " ")) == "{ user }"
  {
  }

  lemma UserTailSpelling()
    ensures Spell(UserTailPieces()) == "/umm/{ user }"
  {
    Spell4(PSlash, PLit("umm"), PSlash, PVar(" ", "user", " "));
    UserTailPlaceholderTexts();
    UserTailJoin();
  }

  lemma UserTailJoin()
    ensures "/" + ("umm" + ("/" + ("{ user }" + ""))) == "/umm/{ user }"
  {
  }

  lemma UserTailTokens()
    ensures Tokenize("/umm/{ user }") == Success([Slash, Lit("umm"), Slash, Var("user", None)])
  {
    UserTailPiecesOk();
    UserTailPieceTokens();
    UserTailSpelling();
    SpelledTokens(UserTailPieces(), "/umm/{ user }", [Slash, Lit("umm"), Slash, Var("user", None)]);
  }

  function AnyTextPieces(): seq<Piece> {
    [PSlash, PLit(".*")]
  }

  lemma AnyTextPiecesOk()
    ensures PiecesOk(AnyTextPieces())
  {
  }

  lemma AnyTextPieceTokens()
    ensures PieceTokens(AnyTextPieces()) == SLASH_ANY_TEXT
  {
    PieceTokensEach(AnyTextPieces());
  }

  lemma AnyTextSpelling()
    ensures Spell(AnyTextPieces()) == "/.*"
  {
    Spell2(PSlash, PLit(".*"));
    AnyTextJoin();
  }

  lemma AnyTextJoin()
    ensures "/" + (".*" + "") == "/.*"
  {
  }

  lemma AnyTextTokens()
    ensures Tokenize("/.*") == Success(SLASH_ANY_TEXT)
  {
    AnyTextPiecesOk();
    AnyTextPieceTokens();
    AnyTextSpelling();
    SpelledTokens(AnyTextPieces(), "/.*", SLASH_ANY_TEXT);
  }

  lemma ReadAnyText()
    ensures UriTemplateToRegex("/.*") == Success(UriPattern(SLASH_ANY_TEXT))
  {
    AnyTextTokens();
  }

  function FruitIdPieces(): seq<Piece> {
    [PSlash, PLit("fruit"), PSlash, PVar("", "id", "")]
  }

  lemma FruitIdPiecesOk()
    ensures PiecesOk(FruitIdPieces())
  {
  }

  lemma FruitIdPieceTokens()
    ensures PieceTokens(FruitIdPieces()) == FRUIT_ID
  {
    PieceTokensEach(FruitIdPieces());
  }

  lemma FruitIdPlaceholderTexts()
    ensures PieceText(PVar("", "id", "")) == "{id}"
  {
  }

  lemma FruitIdSpelling()
    ensures Spell(FruitIdPieces()) == "/fruit/{id}"
  {
    Spell4(PSlash, PLit("fruit"), PSlash, PVar("", "id", ""));
    FruitIdPlaceholderTexts();
    FruitIdJoin();
  }

  lemma FruitIdJoin()
    ensures "/" + ("fruit" + ("/" + ("{id}" + ""))) == "/fruit/{id}"
  {
  }

  lemma FruitIdTokens()
    ensures Tokenize("/fruit/{id}") == Success(FRUIT_ID)
  {
    FruitIdPiecesOk();
    FruitIdPieceTokens();
    FruitIdSpelling();
    SpelledTokens(FruitIdPieces(), "/fruit/{id}", FRUIT_ID);
  }

  lemma ReadFruitId()
    ensures UriTemplateToRegex("/fruit/{id}") == Success(UriPattern(FRUIT_ID))
  {
    FruitIdTokens();
  }

  function FruitIdAnyPieces(): seq<Piece> {
    [PSlash, PLit("fruit"), PSlash, PInline("", "id", " ", " ", ".*", "")]
  }

  lemma FruitIdAnyPiecesOk()
    ensures PiecesOk(FruitIdAnyPieces())
  {
  }

  lemma FruitIdAnyPieceTokens()
    ensures PieceTokens(FruitIdAnyPieces()) == FRUIT_ID_ANY
  {
    PieceTokensEach(FruitIdAnyPieces());
  }

  lemma FruitIdAnyPlaceholderTexts()
    ensures PieceText(PInline("", "id", " ", " ", ".*", "")) == "{id : .*}"
  {
  }

  lemma FruitIdAnySpelling()
    ensures Spell(FruitIdAnyPieces()) == "/fruit/{id : .*}"
  {
    Spell4(PSlash, PLit("fruit"), PSlash, PInline("", "id", " ", " ", ".*", ""));
    FruitIdAnyPlaceholderTexts();
    FruitIdAnyJoin();
  }

  lemma FruitIdAnyJoin()
    ensures "/" + ("fruit" + ("/" + ("{id : .*}" + ""))) == "/fruit/{id : .*}"
  {
  }

  lemma FruitIdAnyTokens()
    ensures Tokenize("/fruit/{id : .*}") == Success(FRUIT_ID_ANY)
  {
    FruitIdAnyPiecesOk();
    FruitIdAnyPieceTokens();
    FruitIdAnySpelling();
    SpelledTokens(FruitIdAnyPieces(), "/fruit/{id : .*}", FRUIT_ID_ANY);
  }

  lemma ReadFruitIdAny()
    ensures UriTemplateToRegex("/fruit/{id : .*}") == Success(UriPattern(FRUIT_ID_ANY))
  {
    FruitIdAnyTokens();
  }

  function FruitNameAnyPieces(): seq<Piece> {
    [PSlash, PLit("fruit"), PSlash, PInline("", "name", "", "", ".*", "")]
  }

  lemma FruitNameAnyPiecesOk()
    ensures PiecesOk(FruitNameAnyPieces())
  {
  }

  lemma FruitNameAnyPieceTokens()
    ensures PieceTokens(FruitNameAnyPieces()) == FRUIT_NAME_ANY
  {
    PieceTokensEach(FruitNameAnyPieces());
  }

  lemma FruitNameAnyPlaceholderTexts()
    ensures PieceText(PInline("", "name", "", "", ".*", "")) == "{name:.*}"
  {
  }

  lemma FruitNameAnySpelling()
    ensures Spell(FruitNameAnyPieces()) == "/fruit/{name:.*}"
  {
    Spell4(PSlash, PLit("fruit"), PSlash, PInline("", "name", "", "", ".*", ""));
    FruitNameAnyPlaceholderTexts();
    FruitNameAnyJoin();
  }

  lemma FruitNameAnyJoin()
    ensures "/" + ("fruit" + ("/" + ("{name:.*}" + ""))) == "/fruit/{name:.*}"
  {
  }

  lemma FruitNameAnyTokens()
    ensures Tokenize("/fruit/{name:.*}") == Success(FRUIT_NAME_ANY)
  {
    FruitNameAnyPiecesOk();
    FruitNameAnyPieceTokens();
    FruitNameAnySpelling();
    SpelledTokens(FruitNameAnyPieces(), "/fruit/{name:.*}", FRUIT_NAME_ANY);
  }

  lemma ReadFruitNameAny()
    ensures UriTemplateToRegex("/fruit/{name:.*}") == Success(UriPattern(FRUIT_NAME_ANY))
  {
    FruitNameAnyTokens();
  }

  function FruitIdDigitsPieces(): seq<Piece> {
    [PSlash, PLit("fruit"), PSlash, PInline("", "id", " ", " ", "[0-9]*", "")]
  }

  lemma FruitIdDigitsPiecesOk()
    ensures PiecesOk(FruitIdDigitsPieces())
  {
  }

  lemma FruitIdDigitsPieceTokens()
    ensures PieceTokens(FruitIdDigitsPieces()) == FRUIT_ID_DIGITS
  {
    PieceTokensEach(FruitIdDigitsPieces());
  }

  lemma FruitIdDigitsPlaceholderTexts()
    ensures PieceText(PInline("", "id", " ", " ", "[0-9]*", "")) == "{id : [0-9]*}"
  {
  }

  lemma FruitIdDigitsSpelling()
    ensures Spell(FruitIdDigitsPieces()) == "/fruit/{id : [0-9]*}"
  {
    Spell4(PSlash, PLit("fruit"), PSlash, PInline("", "id", " ", " ", "[0-9]*", ""));
    FruitIdDigitsPlaceholderTexts();
    FruitIdDigitsJoin();
  }

  lemma FruitIdDigitsJoin()
    ensures "/" + ("fruit" + ("/" + ("{id : [0-9]*}" + ""))) == "/fruit/{id : [0-9]*}"
  {
  }

  lemma FruitIdDigitsTokens()
    ensures Tokenize("/fruit/{id : [0-9]*}") == Success(FRUIT_ID_DIGITS)
  {
    FruitIdDigitsPiecesOk();
    FruitIdDigitsPieceTokens();
    FruitIdDigitsSpelling();
    SpelledTokens(FruitIdDigitsPieces(), "/fruit/{id : [0-9]*}", FRUIT_ID_DIGITS);
  }

  lemma ReadFruitIdDigits()
    ensures UriTemplateToRegex("/fruit/{id : [0-9]*}") == Success(UriPattern(FRUIT_ID_DIGITS))
  {
    FruitIdDigitsTokens();
  }

  function BId2Pieces(): seq<Piece> {
    [PSlash, PLit("b"), PSlash, PVar("", "id2", "")]
  }

  lemma BId2PiecesOk()
    ensures PiecesOk(BId2Pieces())
  {
  }

  lemma BId2PieceTokens()
    ensures PieceTokens(BId2Pieces()) == [Slash, Lit("b"), Slash, Var("id2", None)]
  {
    PieceTokensEach(BId2Pieces());
  }

  lemma BId2PlaceholderTexts()
    ensures PieceText(PVar("", "id2", "")) == "{id2}"
  {
  }

  lemma BId2Spelling()
    ensures Spell(BId2Pieces()) == "/b/{id2}"
  {
    Spell4(PSlash, PLit("b"), PSlash, PVar("", "id2", ""));
    BId2PlaceholderTexts();
    BId2Join();
  }

  lemma BId2Join()
    ensures "/" + ("b" + ("/" + ("{id2}" + ""))) == "/b/{id2}"
  {
  }

  lemma BId2Tokens()
    ensures Tokenize("/b/{id2}") == Success([Slash, Lit("b"), Slash, Var("id2", None)])
  {
    BId2PiecesOk();
    BId2PieceTokens();
    BId2Spelling();
    SpelledTokens(BId2Pieces(), "/b/{id2}", [Slash, Lit("b"), Slash, Var("id2", None)]);
  }

  function CHaPieces(): seq<Piece> {
    [PSlash, PLit("c"), PSlash, PVar(" ", "ha", " ")]
  }

  lemma CHaPiecesOk()
    ensures PiecesOk(CHaPieces())
  {
  }

  lemma CHaPieceTokens()
    ensures PieceTokens(CHaPieces()) == [Slash, Lit("c"), Slash, Var("ha", None)]
  {
    assert PieceToken(PVar(" ", "ha", " ")) == Var("ha", None);
  }

  lemma CHaPlaceholderTexts()
    ensures PieceText(PVar(" ", "ha", " ")) == "{ ha }"
  {
  }

  lemma CHaSpelling()
    ensures Spell(CHaPieces()) == "/c/{ ha }"
  {
    Spell4(PSlash, PLit("c"), PSlash, PVar(" ", "ha", " "));
    CHaPlaceholderTexts();
    CHaJoin();
  }

  lemma CHaJoin()
    ensures "/" + ("c" + ("/" + ("{ ha }" + ""))) == "/c/{ ha }"
  {
  }

  lemma CHaTokens()
    ensures Tokenize("/c/{ ha }") == Success([Slash, Lit("c"), Slash, Var("ha", None)])
  {
    CHaPiecesOk();
    CHaPieceTokens();
    CHaSpelling();
    SpelledTokens(CHaPieces(), "/c/{ ha }", [Slash, Lit("c"), Slash, Var("ha", None)]);
  }

  /** Two templates read one after the other, the second starting with `/` or `{`. */
  lemma JoinedTokens(a: string, b: string, t: string, x: seq<Token>, y: seq<Token>, ts: seq<Token>)
    requires Tokenize(a) == Success(x) && Tokenize(b) == Success(y)
    requires |b| > 0 && EndsLiteral(b[0])
    requires a + b == t && x + y == ts
    ensures Tokenize(t) == Success(ts)
  {
    TokenizeConcat(a, b, x, y);
  }

  lemma FruitVersionNameHalves()
    ensures "fruit/{version: v[12]}" + "/{name}/eat" == "fruit/{version: v[12]}/{name}/eat"
    ensures FRUIT_VERSION + [Slash, Var("name", None), Slash, Lit("eat")] == FRUIT_VERSION_NAME
  {
  }

  lemma FruitVersionNameTokens()
    ensures Tokenize("fruit/{version: v[12]}/{name}/eat") == Success(FRUIT_VERSION_NAME)
  {
    FruitVersionHeadTokens();
    NameEatTokens();
    FruitVersionNameHalves();
    JoinedTokens("fruit/{version: v[12]}", "/{name}/eat", "fruit/{version: v[12]}/{name}/eat", FRUIT_VERSION, [Slash, Var("name", None), Slash, Lit("eat")], FRUIT_VERSION_NAME);
  }

  lemma ReadFruitVersionName()
    ensures UriTemplateToRegex("fruit/{version: v[12]}/{name}/eat") == Success(UriPattern(FRUIT_VERSION_NAME))
  {
    FruitVersionNameTokens();
  }

  lemma SlashFruitVersionNameHalves()
    ensures "/fruit/{version: v[12]}" + "/{name}/eat" == "/fruit/{version: v[12]}/{name}/eat"
    ensures SLASH_FRUIT_VERSION + [Slash, Var("name", None), Slash, Lit("eat")] == SLASH_FRUIT_VERSION_NAME
  {
  }

  lemma SlashFruitVersionNameTokens()
    ensures Tokenize("/fruit/{version: v[12]}/{name}/eat") == Success(SLASH_FRUIT_VERSION_NAME)
  {
    SlashFruitVersionHeadTokens();
    NameEatTokens();
    SlashFruitVersionNameHalves();
    JoinedTokens("/fruit/{version: v[12]}", "/{name}/eat", "/fruit/{version: v[12]}/{name}/eat", SLASH_FRUIT_VERSION, [Slash, Var("name", None), Slash, Lit("eat")], SLASH_FRUIT_VERSION_NAME);
  }

  lemma ReadSlashFruitVersionName()
    ensures UriTemplateToRegex("/fruit/{version: v[12]}/{name}/eat") == Success(UriPattern(SLASH_FRUIT_VERSION_NAME))
  {
    SlashFruitVersionNameTokens();
  }

  lemma UserHalves()
    ensures "/user/{ user}" + "/umm/{ user }" == "/user/{ user}/umm/{ user }"
    ensures [Slash, Lit("user"), Slash, Var("user", None)] + [Slash, Lit("umm"), Slash, Var("user", None)] == USER
  {
  }

  lemma UserTokens()
    ensures Tokenize("/user/{ user}/umm/{ user }") == Success(USER)
  {
    UserHeadTokens();
    UserTailTokens();
    UserHalves();
    JoinedTokens("/user/{ user}", "/umm/{ user }", "/user/{ user}/umm/{ user }", [Slash, Lit("user"), Slash, Var("user", None)], [Slash, Lit("umm"), Slash, Var("user", None)], USER);
  }

  lemma ReadUser()
    ensures UriTemplateToRegex("/user/{ user}/umm/{ user }") == Success(UriPattern(USER))
  {
    UserTokens();
  }

  lemma IdsTailHalves()
    ensures "/b/{id2}" + "/c/{ ha }" == "/b/{id2}/c/{ ha }"
    ensures [Slash, Lit("b"), Slash, Var("id2", None)] + [Slash, Lit("c"), Slash, Var("ha", None)] == [Slash, Lit("b"), Slash, Var("id2", None), Slash, Lit("c"), Slash, Var("ha", None)]
  {
  }

  lemma IdsTailTokens()
    ensures Tokenize("/b/{id2}/c/{ ha }") == Success([Slash, Lit("b"), Slash, Var("id2", None), Slash, Lit("c"), Slash, Var("ha", None)])
  {
    BId2Tokens();
    CHaTokens();
    IdsTailHalves();
    JoinedTokens("/b/{id2}", "/c/{ ha }", "/b/{id2}/c/{ ha }", [Slash, Lit("b"), Slash, Var("id2", None)], [Slash, Lit("c"), Slash, Var("ha", None)], [Slash, Lit("b"), Slash, Var("id2", None), Slash, Lit("c"), Slash, Var("ha", None)]);
  }

  lemma FruitIdsHalves()
    ensures "/fruit/{id : [0-9]*}" + "/b/{id2}/c/{ ha }" == "/fruit/{id : [0-9]*}/b/{id2}/c/{ ha }"
    ensures FRUIT_ID_DIGITS + [Slash, Lit("b"), Slash, Var("id2", None), Slash, Lit("c"), Slash, Var("ha", None)] == FRUIT_IDS
  {
  }

  lemma FruitIdsTokens()
    ensures Tokenize("/fruit/{id : [0-9]*}/b/{id2}/c/{ ha }") == Success(FRUIT_IDS)
  {
    FruitIdDigitsTokens();
    IdsTailTokens();
    FruitIdsHalves();
    JoinedTokens("/fruit/{id : [0-9]*}", "/b/{id2}/c/{ ha }", "/fruit/{id : [0-9]*}/b/{id2}/c/{ ha }", FRUIT_ID_DIGITS, [Slash, Lit("b"), Slash, Var("id2", None), Slash, Lit("c"), Slash, Var("ha", None)], FRUIT_IDS);
  }

  lemma ReadFruitIds()
    ensures UriTemplateToRegex("/fruit/{id : [0-9]*}/b/{id2}/c/{ ha }") == Success(UriPattern(FRUIT_IDS))
  {
    FruitIdsTokens();
  }
  // ----- what the test reads off a compiled template ----------------------------------

  /** `pattern(template)`: the regex text of the compiled template. */
  function PatternOf(t: string): Option<string> {
    match UriTemplateToRegex(t)
    case Success(p) => Some(Pattern(p))
    case Failure(_) => None
  }

  /** `literalCount(template)`. */
  function LiteralCountOf(t: string): Option<nat> {
    match UriTemplateToRegex(t)
    case Success(p) => Some(NumberOfLiterals(p))
    case Failure(_) => None
  }

  function GroupsOf(t: string): Option<set<string>> {
    match UriTemplateToRegex(t)
    case Success(p) => Some(NamedGroups(p))
    case Failure(_) => None
  }

  function PathOf(t: string): Option<string> {
    match UriTemplateToRegex(t)
    case Success(p) => Some(Path(p))
    case Failure(_) => None
  }

  /** `templatesEqual(one, two)`. */
  function TemplatesEqual(one: string, two: string): Option<bool> {
    match (UriTemplateToRegex(one), UriTemplateToRegex(two))
    case (Success(p), Success(q)) => Some(EqualModuloVariableNames(p, q))
    case _ => None
  }

  /** `uriTemplateToRegex(template).matcher(uri)`, for templates without inline regexes. */
  function MatchOf(t: string, uri: string): Option<PathMatch> {
    match UriTemplateToRegex(t)
    case Success(p) => if DefaultOnly(p.Tokens()) then Some(Matcher(p, uri)) else None
    case Failure(_) => None
  }

  // ----- facts about the tokens --------------------------------------------------------

  lemma FruitStripped()
    ensures UriPattern(SLASH_FRUIT).Tokens() == FRUIT
    ensures UriPattern(FRUIT_SLASH).Tokens() == FRUIT
    ensures UriPattern(SLASH_FRUIT_SLASH).Tokens() == FRUIT
  {
  }

  lemma FruitFacts()
    ensures Pattern(UriPattern(FRUIT)) == "\\Qfruit\\E(/.*)?"
    ensures NumberOfLiterals(UriPattern(FRUIT)) == 5
  {
  }

  lemma FruitMatches()
    ensures DefaultOnly(FRUIT)
    ensures Matcher(UriPattern(FRUIT), "fruit") == PathMatch(true, map[])
  {
  }

  // ----- leadingAndTrailingSlashesAreIgnored ---------------------------------------------

  lemma LeadingAndTrailingSlashesAreIgnored()
    ensures PatternOf("/fruit") == PatternOf("fruit") == PatternOf("fruit/") == PatternOf("/fruit/")
            == Some("\\Qfruit\\E(/.*)?")
    ensures LiteralCountOf("/fruit") == LiteralCountOf("fruit") == LiteralCountOf("fruit/")
            == LiteralCountOf("/fruit/") == Some(5)
    ensures MatchOf("fruit", "fruit").Some? && MatchOf("fruit", "fruit").value.prefixMatches
  {
    ReadFruit();
    ReadSlashFruit();
    ReadFruitSlash();
    ReadSlashFruitSlash();
    FruitStripped();
    FruitFacts();
    FruitMatches();
  }
  // ----- encodingIsOptional, spacesInPathsAreOkay ---------------------------------------

  lemma EncodedFruit()
    ensures PercentCoding.Encode("fruit", {' '}) == "fruit"
  {
  }

  lemma EncodedSpace()
    ensures PercentCoding.Encode(" ", {' '}) == "%20"
  {
  }

  lemma EncodedBits()
    ensures PercentCoding.Encode("bits", {' '}) == "bits"
  {
  }

  lemma FruitBitsParts()
    ensures "fruit bits" == "fruit" + (" " + "bits")
    ensures "fruit" + ("%20" + "bits") == "fruit%20bits"
  {
  }

  lemma EncodedFruitBits()
    ensures PercentCoding.Encode("fruit bits", {' '}) == "fruit%20bits"
  {
    FruitBitsParts();
    PercentCoding.EncodeConcat("fruit", " " + "bits", {' '});
    PercentCoding.EncodeConcat(" ", "bits", {' '});
    EncodedFruit();
    EncodedSpace();
    EncodedBits();
  }

  lemma EncodingIsOptionalVector()
    ensures PatternOf("fruit bits") == PatternOf("fruit%20bits")
  {
    EncodedFruitBits();
    FruitBitsPlain();
    EncodingIsOptional("fruit bits", {' '});
  }

  lemma FruitBitsPlain()
    ensures PlainLiteral("fruit bits")
  {
  }

  lemma FruitBitsPath()
    ensures RelativePath("fruit%20bits") == "fruit bits"
  {
    EncodedFruitBits();
    PercentCoding.DecodeEncode("fruit bits", {' '});
  }

  lemma FruitBitsMatch()
    ensures Match(FRUIT_BITS, "fruit bits", map[]) == Some(map[])
  {
    assert FRUIT_BITS == [Lit("fruit bits")] + [];
    assert "fruit bits" == "fruit bits" + "";
    MatchLit("fruit bits", [], "", map[]);
  }

  lemma FruitBitsMatcher()
    ensures DefaultOnly(UriPattern(FRUIT_BITS).Tokens())
    ensures Matcher(UriPattern(FRUIT_BITS), "fruit%20bits") == PathMatch(true, map[])
  {
    assert UriPattern(FRUIT_BITS).Tokens() == FRUIT_BITS;
    FruitBitsPath();
    FruitBitsMatch();
  }

  lemma SpacesInPathsAreOkay()
    ensures MatchOf("fruit bits", "fruit%20bits") == Some(PathMatch(true, map[]))
  {
    ReadFruitBits();
    FruitBitsMatcher();
  }

  // ----- uriTemplatesCanBeConvertedToRegexes -------------------------------------------

  const NAME_EAT: seq<Token> := [Slash, Var("name", None), Slash, Lit("eat")]

  lemma SlashFruitNameStripped()
    ensures UriPattern(SLASH_FRUIT_NAME).Tokens() == FRUIT_NAME
  {
  }

  lemma SlashFruitVersionStripped()
    ensures UriPattern(SLASH_FRUIT_VERSION).Tokens() == FRUIT_VERSION
  {
  }

  lemma SlashFruitVersionNameStripped()
    ensures UriPattern(SLASH_FRUIT_VERSION_NAME).Tokens() == FRUIT_VERSION_NAME
  {
  }

  lemma FruitNameBody()
    ensures RegexBody(FRUIT_NAME, {}) + SUFFIX == "\\Qfruit\\E/(?<name>[^/]+?)(/.*)?"
  {
  }

  lemma FruitNameRegex()
    ensures Pattern(UriPattern(FRUIT_NAME)) == "\\Qfruit\\E/(?<name>[^/]+?)(/.*)?"
  {
    assert UriPattern(FRUIT_NAME).Tokens() == FRUIT_NAME;
    FruitNameBody();
  }

  lemma FruitVersionRegex()
    ensures Pattern(UriPattern(FRUIT_VERSION)) == "\\Qfruit\\E/(?<version>v[12])(/.*)?"
  {
    assert UriPattern(FRUIT_VERSION).Tokens() == FRUIT_VERSION;
    FruitVersionBody();
    assert "\\Qfruit\\E/(?<version>v[12])" + "(/.*)?" == "\\Qfruit\\E/(?<version>v[12])(/.*)?";
  }

  lemma FruitVersionBody()
    ensures RegexBody(FRUIT_VERSION, {}) == "\\Qfruit\\E/(?<version>v[12])"
    ensures Names(FRUIT_VERSION) == {"version"}
  {
    FruitVersionParts();
    FruitVersionJoin();
  }

  lemma FruitVersionParts()
    ensures RegexBody(FRUIT_VERSION, {}) == "\\Qfruit\\E" + ("/" + ("(?<version>v[12])" + ""))
  {
    assert TokenRegex(Lit("fruit"), {}) == "\\Qfruit\\E";
    assert TokenRegex(Var("version", Some("v[12]")), {}) == "(?<version>v[12])";
  }

  lemma FruitVersionJoin()
    ensures "\\Qfruit\\E" + ("/" + ("(?<version>v[12])" + "")) == "\\Qfruit\\E/(?<version>v[12])"
  {
  }

  lemma NameEatBody()
    ensures RegexBody(NAME_EAT, {"version"}) + SUFFIX == "/(?<name>[^/]+?)/\\Qeat\\E(/.*)?"
  {
    NameEatParts();
    NameEatRegexJoin();
  }

  lemma NameEatParts()
    ensures RegexBody(NAME_EAT, {"version"}) == "/" + ("(?<name>[^/]+?)" + ("/" + ("\\Qeat\\E" + "")))
  {
    assert TokenRegex(Var("name", None), {"version"}) == "(?<name>[^/]+?)";
    assert TokenRegex(Lit("eat"), {"version", "name"}) == "\\Qeat\\E";
  }

  lemma NameEatRegexJoin()
    ensures "/" + ("(?<name>[^/]+?)" + ("/" + ("\\Qeat\\E" + ""))) + SUFFIX == "/(?<name>[^/]+?)/\\Qeat\\E(/.*)?"
  {
  }

  lemma FruitVersionNameRegex()
    ensures Pattern(UriPattern(FRUIT_VERSION_NAME))
            == "\\Qfruit\\E/(?<version>v[12])" + "/(?<name>[^/]+?)/\\Qeat\\E(/.*)?"
  {
    FruitVersionNameParts();
    RegexBodyConcat(FRUIT_VERSION, NAME_EAT, {});
    FruitVersionBody();
    NameEatBody();
    AppendAssoc(RegexBody(FRUIT_VERSION, {}), RegexBody(NAME_EAT, {"version"}), SUFFIX);
  }

  lemma FruitVersionNameParts()
    ensures FRUIT_VERSION_NAME == FRUIT_VERSION + NAME_EAT
    ensures UriPattern(FRUIT_VERSION_NAME).Tokens() == FRUIT_VERSION_NAME
  {
  }

  lemma SlashFruitNamePattern()
    ensures PatternOf("/fruit/{name}") == Some("\\Qfruit\\E/(?<name>[^/]+?)(/.*)?")
  {
    ReadSlashFruitName();
    SlashFruitNameStripped();
    FruitNameRegex();
  }

  lemma SlashFruitVersionSpacedPattern()
    ensures PatternOf("/fruit/{version : v[12]}") == Some("\\Qfruit\\E/(?<version>v[12])(/.*)?")
  {
    ReadSlashFruitVersionSpaced();
    SlashFruitVersionStripped();
    FruitVersionRegex();
  }

  lemma SlashFruitVersionTightPattern()
    ensures PatternOf("/fruit/{version:v[12]}") == Some("\\Qfruit\\E/(?<version>v[12])(/.*)?")
  {
    ReadSlashFruitVersionTight();
    SlashFruitVersionStripped();
    FruitVersionRegex();
  }

  lemma SlashFruitVersionNamePattern()
    ensures PatternOf("/fruit/{version: v[12]}/{name}/eat")
            == Some("\\Qfruit\\E/(?<version>v[12])" + "/(?<name>[^/]+?)/\\Qeat\\E(/.*)?")
  {
    ReadSlashFruitVersionName();
    SlashFruitVersionNameStripped();
    FruitVersionNameRegex();
  }

  lemma UriTemplatesCanBeConvertedToRegexes()
    ensures PatternOf("/fruit") == Some("\\Qfruit\\E(/.*)?")
    ensures PatternOf("/fruit/{name}") == Some("\\Qfruit\\E/(?<name>[^/]+?)(/.*)?")
    ensures PatternOf("/fruit/{version : v[12]}") == Some("\\Qfruit\\E/(?<version>v[12])(/.*)?")
    ensures PatternOf("/fruit/{version:v[12]}") == Some("\\Qfruit\\E/(?<version>v[12])(/.*)?")
    ensures PatternOf("/fruit/{version: v[12]}/{name}/eat")
            == Some("\\Qfruit\\E/(?<version>v[12])" + "/(?<name>[^/]+?)/\\Qeat\\E(/.*)?")
  {
    LeadingAndTrailingSlashesAreIgnored();
    SlashFruitNamePattern();
    SlashFruitVersionSpacedPattern();
    SlashFruitVersionTightPattern();
    SlashFruitVersionNamePattern();
  }

  // ----- countsNumberOfLiteralCharacters, namedGroupsAreReturnedInThePattern -------------

  lemma LiteralCounts()
    ensures NumberOfLiterals(UriPattern(FRUIT_NAME)) == 6
    ensures NumberOfLiterals(UriPattern(FRUIT_VERSION)) == 6
    ensures NumberOfLiterals(UriPattern(FRUIT_VERSION_NAME)) == 11
  {
  }

  lemma CountsNumberOfLiteralCharacters()
    ensures LiteralCountOf("fruit") == Some(5)
    ensures LiteralCountOf("fruit/{name}") == Some(6)
    ensures LiteralCountOf("fruit/{version : v[12]}") == Some(6)
    ensures LiteralCountOf("fruit/{version:v[12]}") == Some(6)
    ensures LiteralCountOf("fruit/{version: v[12]}/{name}/eat") == Some(11)
  {
    LeadingAndTrailingSlashesAreIgnored();
    ReadFruitName();
    ReadFruitVersionSpaced();
    ReadFruitVersionTight();
    ReadFruitVersionName();
    LiteralCounts();
  }

  lemma FruitVersionNameGroups()
    ensures NamedGroups(UriPattern(SLASH_FRUIT_VERSION_NAME)) == {"name", "version"}
  {
    SlashFruitVersionNameStripped();
  }

  lemma NamedGroupsAreReturnedInThePattern()
    ensures GroupsOf("/fruit/{version: v[12]}/{name}/eat") == Some({"name", "version"})
  {
    ReadSlashFruitVersionName();
    FruitVersionNameGroups();
  }

  // ----- canCheckForEqualityIgnoringVariableNames -----------------------------------------

  lemma Shapes()
    ensures Shape(UriPattern(SLASH_FRUIT).Tokens()) == [SLit("fruit")]
    ensures Shape(UriPattern(SLASH_ANY_TEXT).Tokens()) == [SLit(".*")]
    ensures Shape(UriPattern(FRUIT_ID).Tokens()) == [SLit("fruit"), SSlash, SGroup(DEFAULT_GROUP)]
    ensures Shape(UriPattern(SLASH_FRUIT_NAME).Tokens()) == [SLit("fruit"), SSlash, SGroup(DEFAULT_GROUP)]
    ensures Shape(UriPattern(FRUIT_ID_ANY).Tokens()) == [SLit("fruit"), SSlash, SGroup(".*")]
    ensures Shape(UriPattern(FRUIT_NAME_ANY).Tokens()) == [SLit("fruit"), SSlash, SGroup(".*")]
    ensures Shape(UriPattern(FRUIT_ID_DIGITS).Tokens()) == [SLit("fruit"), SSlash, SGroup("[0-9]*")]
  {
  }

  lemma FruitNotAnyText()
    ensures TemplatesEqual("/fruit", "/.*") == Some(false)
  {
    ReadSlashFruit();
    ReadAnyText();
    Shapes();
    assert SLit("fruit") != SLit(".*");
  }

  lemma FruitEqualsItself()
    ensures TemplatesEqual("/fruit", "/fruit") == Some(true)
  {
    ReadSlashFruit();
  }

  lemma IdEqualsName()
    ensures TemplatesEqual("/fruit/{id}", "/fruit/{name}") == Some(true)
  {
    ReadFruitId();
    ReadSlashFruitName();
    Shapes();
  }

  lemma IdAnyEqualsNameAny()
    ensures TemplatesEqual("/fruit/{id : .*}", "/fruit/{name:.*}") == Some(true)
  {
    ReadFruitIdAny();
    ReadFruitNameAny();
    Shapes();
  }

  lemma DigitsNotAny()
    ensures TemplatesEqual("/fruit/{id : [0-9]*}", "/fruit/{id : .*}") == Some(false)
  {
    ReadFruitIdAny();
    ReadFruitIdDigits();
    Shapes();
    assert SGroup("[0-9]*") != SGroup(".*");
  }

  lemma CanCheckForEqualityIgnoringVariableNames()
    ensures TemplatesEqual("/fruit", "/.*") == Some(false)
    ensures TemplatesEqual("/fruit", "/fruit") == Some(true)
    ensures TemplatesEqual("/fruit/{id}", "/fruit/{name}") == Some(true)
    ensures TemplatesEqual("/fruit/{id : .*}", "/fruit/{name:.*}") == Some(true)
    ensures TemplatesEqual("/fruit/{id : [0-9]*}", "/fruit/{id : .*}") == Some(false)
  {
    FruitNotAnyText();
    FruitEqualsItself();
    IdEqualsName();
    IdAnyEqualsNameAny();
    DigitsNotAny();
  }

  // ----- canGetPathsWithoutRegexInfo -----------------------------------------------------

  lemma SlashFruitPath()
    ensures Path(UriPattern(SLASH_FRUIT)) == "/fruit"
  {
  }

  lemma FruitIdPath()
    ensures Path(UriPattern(FRUIT_ID)) == "/fruit/{id}"
  {
  }

  lemma FruitIdAnyPath()
    ensures Path(UriPattern(FRUIT_ID_ANY)) == "/fruit/{id}"
  {
  }

  const IDS_HEAD: seq<Token> := [Slash, Lit("fruit"), Slash, Var("id", None)]
  const IDS_TAIL: seq<Token> := [Slash, Lit("b"), Slash, Var("id2", None), Slash, Lit("c"), Slash, Var("ha", None)]

  lemma FruitIdsErased()
    ensures EraseRegex(FRUIT_IDS) == IDS_HEAD + IDS_TAIL
  {
  }

  lemma FruitIdsPathHead()
    ensures Unparse(IDS_HEAD) == "/fruit/{id}"
  {
  }

  const IDS_B: seq<Token> := [Slash, Lit("b"), Slash, Var("id2", None)]
  const IDS_C: seq<Token> := [Slash, Lit("c"), Slash, Var("ha", None)]

  lemma IdsBPath()
    ensures Unparse(IDS_B) == "/b/{id2}"
  {
  }

  lemma IdsCPath()
    ensures Unparse(IDS_C) == "/c/{ha}"
  {
  }

  lemma IdsTailParts()
    ensures IDS_TAIL == IDS_B + IDS_C
    ensures "/b/{id2}" + "/c/{ha}" == "/b/{id2}/c/{ha}"
  {
  }

  lemma FruitIdsPathTail()
    ensures Unparse(IDS_TAIL) == "/b/{id2}/c/{ha}"
  {
    IdsTailParts();
    UnparseConcat(IDS_B, IDS_C);
    IdsBPath();
    IdsCPath();
  }

  lemma FruitIdsPathJoined()
    ensures "/fruit/{id}" + "/b/{id2}/c/{ha}" == "/fruit/{id}/b/{id2}/c/{ha}"
  {
  }

  lemma FruitIdsPath()
    ensures Path(UriPattern(FRUIT_IDS)) == "/fruit/{id}/b/{id2}/c/{ha}"
  {
    FruitIdsErased();
    UnparseConcat(IDS_HEAD, IDS_TAIL);
    FruitIdsPathHead();
    FruitIdsPathTail();
    FruitIdsPathJoined();
  }

  lemma CanGetPathsWithoutRegexInfo()
    ensures PathOf("/fruit") == Some("/fruit")
    ensures PathOf("/fruit/{id}") == Some("/fruit/{id}")
    ensures PathOf("/fruit/{id : .*}") == Some("/fruit/{id}")
    ensures PathOf("/fruit/{id : [0-9]*}/b/{id2}/c/{ ha }") == Some("/fruit/{id}/b/{id2}/c/{ha}")
  {
    ReadSlashFruit();
    ReadFruitId();
    ReadFruitIdAny();
    ReadFruitIds();
    SlashFruitPath();
    FruitIdPath();
    FruitIdAnyPath();
    FruitIdsPath();
  }
  // ----- multipleParamsCanExistWithinASingleSegment ----------------------------------------

  const GIVEN: seq<Token> := [Lit("-"), Var("givenName", None)]

  /** The given name takes the whole rest of the segment: every shorter capture leaves text over. */
  lemma GivenNameCaptured(env: Env)
    requires "givenName" !in env
    ensures TryLengths("givenName", [], "Kennel", 1, env) == Some(env["givenName" := "Kennel"])
  {
    var s := "Kennel";
    forall i | 1 <= i < 6
      ensures Match([], s[i..], env["givenName" := s[..i]]).None?
    {
      assert s[i..][0] == s[i] != '/';
    }
    assert s[6..] == "" && s[..6] == s;
    TryLengthsShortest("givenName", [], s, 1, 6, env);
  }

  /** The family name runs up to the hyphen: every shorter capture leaves a letter where `-` must be. */
  lemma FamilyNameShorterFails()
    ensures forall i | 1 <= i < 6 :: Match(GIVEN, "Fennel-Kennel"[i..], map["familyName" := "Fennel-Kennel"[..i]]).None?
  {
    var s := "Fennel-Kennel";
    forall i | 1 <= i < 6
      ensures Match(GIVEN, s[i..], map["familyName" := s[..i]]).None?
    {
      assert s[i..][0] == s[i] != '-';
      MatchLitFails("-", [Var("givenName", None)], s[i..], map["familyName" := s[..i]]);
    }
  }

  lemma FamilyNameCaptured()
    ensures TryLengths("familyName", GIVEN, "Fennel-Kennel", 1, map[])
            == Some(map["familyName" := "Fennel", "givenName" := "Kennel"])
  {
    var s := "Fennel-Kennel";
    FamilyNameShorterFails();
    assert s[..6] == "Fennel" && s[6..] == "-" + "Kennel";
    GivenNameAfterHyphen();
    TryLengthsShortest("familyName", GIVEN, s, 1, 6, map[]);
  }

  /** With `Fennel` captured, the rest `-Kennel` matches the hyphen and then captures `Kennel`. */
  lemma GivenNameAfterHyphen()
    ensures Match(GIVEN, "-" + "Kennel", map["familyName" := "Fennel"])
            == Some(map["familyName" := "Fennel", "givenName" := "Kennel"])
  {
    var env := map["familyName" := "Fennel"];
    MatchLit("-", [Var("givenName", None)], "Kennel", env);
    MatchGroup("givenName", None, [], "Kennel", env);
    assert [Var("givenName", None)] + [] == [Var("givenName", None)];
    GivenNameCaptured(env);
    assert env["givenName" := "Kennel"] == map["familyName" := "Fennel", "givenName" := "Kennel"];
  }

  lemma PeopleStripped()
    ensures UriPattern(PEOPLE).Tokens() == PEOPLE && DefaultOnly(PEOPLE)
  {
  }

  lemma PeoplePath()
    ensures RelativePath("people/Fennel-Kennel") == "people/Fennel-Kennel"
  {
    RelativePathUnchanged("people/Fennel-Kennel");
  }

  lemma PeopleSplit()
    ensures PEOPLE == [Lit("people")] + ([Slash] + ([Var("familyName", None)] + GIVEN))
    ensures "people/Fennel-Kennel" == "people" + ("/" + "Fennel-Kennel")
  {
  }

  lemma PeopleMatches()
    ensures Match(PEOPLE, "people/Fennel-Kennel", map[])
            == Some(map["familyName" := "Fennel", "givenName" := "Kennel"])
  {
    PeopleSplit();
    MatchLit("people", [Slash] + ([Var("familyName", None)] + GIVEN), "/" + "Fennel-Kennel", map[]);
    MatchSlash([Var("familyName", None)] + GIVEN, "Fennel-Kennel", map[]);
    MatchGroup("familyName", None, GIVEN, "Fennel-Kennel", map[]);
    FamilyNameCaptured();
  }

  lemma PeopleFacts()
    ensures NamedGroups(UriPattern(PEOPLE)) == {"familyName", "givenName"}
    ensures NumberOfLiterals(UriPattern(PEOPLE)) == 8
  {
  }

  lemma MultipleParamsCanExistWithinASingleSegment()
    ensures GroupsOf("people/{familyName}-{givenName}") == Some({"familyName", "givenName"})
    ensures LiteralCountOf("people/{familyName}-{givenName}") == Some(8)
    ensures MatchOf("people/{familyName}-{givenName}", "people/Fennel-Kennel")
            == Some(PathMatch(true, map["familyName" := "Fennel", "givenName" := "Kennel"]))
  {
    ReadPeople();
    PeopleFacts();
    PeopleStripped();
    PeoplePath();
    PeopleMatches();
  }
  // ----- parametersCanBeRepeated -------------------------------------------------------------

  /** What follows the first `{ user}`: a second `user`, compiled to a back-reference. */
  const AFTER_USER: seq<Token> := [Slash, Lit("umm"), Slash, Var("user", None)]

  lemma UserStripped()
    ensures UriPattern(USER).Tokens() == [Lit("user"), Slash, Var("user", None)] + AFTER_USER
    ensures DefaultOnly(UriPattern(USER).Tokens())
  {
  }

  lemma UserGroups()
    ensures NamedGroups(UriPattern(USER)) == {"user"}
  {
    UserStripped();
  }

  lemma UserLiterals()
    ensures NumberOfLiterals(UriPattern(USER)) == 10
  {
    UserStripped();
  }

  /** The template's leading `user/` is consumed, then the first `user` group starts. */
  lemma UserHead(x: string)
    ensures Match([Lit("user"), Slash, Var("user", None)] + AFTER_USER, "user" + ("/" + x), map[])
            == TryLengths("user", AFTER_USER, x, 1, map[])
  {
    assert [Lit("user"), Slash, Var("user", None)] + AFTER_USER
        == [Lit("user")] + ([Slash] + ([Var("user", None)] + AFTER_USER));
    MatchLit("user", [Slash] + ([Var("user", None)] + AFTER_USER), "/" + x, map[]);
    MatchSlash([Var("user", None)] + AFTER_USER, x, map[]);
    MatchGroup("user", None, AFTER_USER, x, map[]);
  }

  lemma DanTail()
    ensures Match(AFTER_USER, "/umm/dan", map["user" := "dan"]) == Some(map["user" := "dan"])
  {
    var env := map["user" := "dan"];
    assert "/umm/dan" == "/" + ("umm" + ("/" + ("dan" + "")));
    assert AFTER_USER == [Slash] + ([Lit("umm")] + ([Slash] + ([Var("user", None)] + [])));
    MatchSlash([Lit("umm")] + ([Slash] + ([Var("user", None)] + [])), "umm" + ("/" + ("dan" + "")), env);
    MatchLit("umm", [Slash] + ([Var("user", None)] + []), "/" + ("dan" + ""), env);
    MatchSlash([Var("user", None)] + [], "dan" + "", env);
    MatchBackRef("user", None, [], "", env);
  }

  lemma NotDanTail()
    ensures Match(AFTER_USER, "/umm/notdan", map["user" := "dan"]) == None
  {
    var env := map["user" := "dan"];
    assert "/umm/notdan" == "/" + ("umm" + ("/" + "notdan"));
    assert AFTER_USER == [Slash] + ([Lit("umm")] + ([Slash] + ([Var("user", None)] + [])));
    MatchSlash([Lit("umm")] + ([Slash] + ([Var("user", None)] + [])), "umm" + ("/" + "notdan"), env);
    MatchLit("umm", [Slash] + ([Var("user", None)] + []), "/" + "notdan", env);
    MatchSlash([Var("user", None)] + [], "notdan", env);
    assert !("dan" <= "notdan");
    MatchBackRefFails("user", None, [], "notdan", env);
  }

  /** The lazy group tries `d` and `da` first; only `dan` lets the rest match. */
  lemma DanCaptured()
    ensures TryLengths("user", AFTER_USER, "dan/umm/dan", 1, map[]) == Some(map["user" := "dan"])
  {
    var s := "dan/umm/dan";
    forall i | 1 <= i < 3
      ensures Match(AFTER_USER, s[i..], map["user" := s[..i]]).None?
    {
      assert s[i..][0] == s[i] != '/';
      MatchSlashFails([Lit("umm"), Slash, Var("user", None)], s[i..], map["user" := s[..i]]);
    }
    assert s[..3] == "dan" && s[3..] == "/umm/dan";
    DanTail();
    TryLengthsShortest("user", AFTER_USER, s, 1, 3, map[]);
  }

  /** No capture works: `d` and `da` leave no slash next, `dan` is not repeated, and a capture cannot cross the slash. */
  lemma NotDanRejected()
    ensures TryLengths("user", AFTER_USER, "dan/umm/notdan", 1, map[]).None?
  {
    var s := "dan/umm/notdan";
    forall i | 3 < i <= |s|
      ensures !NoSlash(s[..i])
    {
      assert s[..i][3] == '/';
    }
    forall i | 1 <= i <= 3
      ensures Match(AFTER_USER, s[i..], map["user" := s[..i]]).None?
    {
      if i == 3 {
        assert s[..3] == "dan" && s[3..] == "/umm/notdan";
        NotDanTail();
      } else {
        assert s[i..][0] == s[i] != '/';
        MatchSlashFails([Lit("umm"), Slash, Var("user", None)], s[i..], map["user" := s[..i]]);
      }
    }
    assert s[..0] == "";
    TryLengthsFails("user", AFTER_USER, s, 1, map[]);
  }

  lemma UserDanPath()
    ensures RelativePath("/user/dan/umm/dan") == "user/dan/umm/dan"
  {
    assert "/user/dan/umm/dan" == "/" + "user/dan/umm/dan";
    RelativePathPlain("user/dan/umm/dan");
  }

  lemma UserDanJoin()
    ensures "user/dan/umm/dan" == "user" + ("/" + "dan/umm/dan")
  {
  }

  lemma UserNotDanPath()
    ensures RelativePath("/user/dan/umm/notdan") == "user/dan/umm/notdan"
  {
    assert "/user/dan/umm/notdan" == "/" + "user/dan/umm/notdan";
    RelativePathPlain("user/dan/umm/notdan");
  }

  lemma UserNotDanJoin()
    ensures "user/dan/umm/notdan" == "user" + ("/" + "dan/umm/notdan")
  {
  }

  lemma UserDanMatch()
    ensures Match(UriPattern(USER).Tokens(), "user/dan/umm/dan", map[]) == Some(map["user" := "dan"])
  {
    UserDanJoin();
    UserStripped();
    UserHead("dan/umm/dan");
    DanCaptured();
  }

  lemma UserNotDanMatch()
    ensures Match(UriPattern(USER).Tokens(), "user/dan/umm/notdan", map[]).None?
  {
    UserNotDanJoin();
    UserStripped();
    UserHead("dan/umm/notdan");
    NotDanRejected();
  }

  lemma UserDanMatches()
    ensures Matcher(UriPattern(USER), "/user/dan/umm/dan") == PathMatch(true, map["user" := "dan"])
  {
    UserStripped();
    UserDanPath();
    UserDanMatch();
  }

  lemma UserNotDanFails()
    ensures Matcher(UriPattern(USER), "/user/dan/umm/notdan") == PathMatch(false, map[])
  {
    UserStripped();
    UserNotDanPath();
    UserNotDanMatch();
  }

  lemma UserGroupsOf()
    ensures GroupsOf("/user/{ user}/umm/{ user }") == Some({"user"})
  {
    ReadUser();
    UserGroups();
  }

  lemma UserLiteralCountOf()
    ensures LiteralCountOf("/user/{ user}/umm/{ user }") == Some(10)
  {
    ReadUser();
    UserLiterals();
  }

  lemma UserDanMatchOf()
    ensures MatchOf("/user/{ user}/umm/{ user }", "/user/dan/umm/dan")
            == Some(PathMatch(true, map["user" := "dan"]))
  {
    ReadUser();
    UserStripped();
    UserDanMatches();
  }

  lemma UserNotDanMatchOf()
    ensures MatchOf("/user/{ user}/umm/{ user }", "/user/dan/umm/notdan")
            == Some(PathMatch(false, map[]))
  {
    ReadUser();
    UserStripped();
    UserNotDanFails();
  }

  lemma ParametersCanBeRepeated()
    ensures GroupsOf("/user/{ user}/umm/{ user }") == Some({"user"})
    ensures LiteralCountOf("/user/{ user}/umm/{ user }") == Some(10)
    ensures MatchOf("/user/{ user}/umm/{ user }", "/user/dan/umm/dan")
            == Some(PathMatch(true, map["user" := "dan"]))
    ensures MatchOf("/user/{ user}/umm/{ user }", "/user/dan/umm/notdan")
            == Some(PathMatch(false, map[]))
  {
    UserGroupsOf();
    UserLiteralCountOf();
    UserDanMatchOf();
    UserNotDanMatchOf();
  }
}
