/** The whole build of a translated page: check the round trip, parse, translate, print. */
module HtmlPage {
  import opened Text
  import opened HtmlTree
  import opened HtmlRoundTrip
  import opened HtmlBuilder
  import opened HtmlTranslate
  import opened HtmlPlaces
  import opened HtmlLookups
  import opened HtmlTranslator

  /** `roundtrip_check` of the document the events were cut from. */
  method RoundTripCheck(evs: seq<Event>) returns (ok: bool)
    ensures ok <==> Print(Build(evs)) == Raw(evs)
    ensures Tokenised(evs) ==> (ok <==> WellNested([], evs))
  {
    var root := Parse(evs);
    ok := root.Serialize() == Raw(evs);
    if Tokenised(evs) { LosslessIff(evs); }
  }

  /** `after` is `before` with pieces of the page substituted: each stands where its segment says, may go as one, and
      is replaced by the table's answer for it. */
  ghost predicate Substituted(lex: Lexicon, root: Tree, before: string, after: string) {
    exists ps: seq<Piece> ::
      Licensed(lex, ps) && AllLocated(lex, root, "", ps) && Before(ps) == before && After(ps) == after
  }

  /** Builds the page, or nothing when the round trip fails. A page that is built is the input with
      licensed substitutions, and an empty record of missing keys means that no lookup missed and that every text
      of the page is an answer of the table or rightly stands. */
  method BuildPage(table: map<string, string>, plain: string -> string, isFo: string -> bool, evs: seq<Event>)
    returns (page: Option<string>, missing: map<string, string>)
    ensures page.Some? <==> Print(Build(evs)) == Raw(evs)
    ensures page.Some? ==> page.value == Print(Tr(PageLexicon(table, plain, isFo), Build(evs)))
    ensures page.Some? ==> Substituted(PageLexicon(table, plain, isFo), Build(evs), Raw(evs), page.value)
    ensures page.Some? && missing == map[] ==>
      var lex := PageLexicon(table, plain, isFo);
      (forall a <- Asked(lex, Build(evs)) :: Listed(lex, a.text) || NeedsNone(lex, a.text))
      && AllSettled(lex, Build(evs))
    ensures page.Some? && plain("") == "" ==>
      var lex := PageLexicon(table, plain, isFo);
      forall a <- Asked(lex, Build(evs)) :: Listed(lex, a.text) ==> Contains(page.value, table[plain(a.text)])
  {
    var lex := PageLexicon(table, plain, isFo);
    missing := map[];
    var ok := RoundTripCheck(evs);
    if !ok {
      return None, missing;
    }
    var root := Parse(evs);
    var translator := new Translator(lex);
    translator.Translate(root);
    page, missing := Some(root.Serialize()), translator.missing;

    ghost var t := Build(evs);
    TrIsLocal(lex, t);
    PrintOne(t);
    PrintOne(Tr(lex, t));
    if plain("") == "" { EntriesShown(lex, evs); }
    assert Licensed(lex, Pieces(lex, t)) && AllLocated(lex, t, "", Pieces(lex, t));
    assert Before(Pieces(lex, t)) == Raw(evs) && After(Pieces(lex, t)) == page.value;
    if missing == map[] {
      forall a | a in Asked(lex, t) ensures !Misses(lex, a.text) {
        MissingIsComplete(lex, map[], Asked(lex, t), lex.plain(a.text));
      }
      NothingLeftOver(lex, evs);
    }
  }
}
