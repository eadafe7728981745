/**
 * The classic search of `search_view`: published articles whose title or body
 * contains the query, ignoring case, and the count the search log records.
 */
module Search {
  import opened Text
  import opened Models
  import opened Selection

  /** `filter(statut='publie', titre__icontains=q)` */
  function TitleHit(q: string): Article -> bool
  {
    (a: Article) => a.status == Publie && ContainsIgnoreCase(a.title, q)
  }

  /** `filter(statut='publie', contenu__icontains=q)` */
  function BodyHit(q: string): Article -> bool
  {
    (a: Article) => a.status == Publie && ContainsIgnoreCase(a.content, q)
  }

  /**
   * The union of the two querysets: every published article that contains the
   * query in its title or its body, each exactly once.
   */
  function Results(articles: seq<Article>, q: string): (ids: seq<nat>)
    ensures Ascending(ids)
    ensures forall k: nat :: k in ids <==>
      k < |articles| && articles[k].status == Publie
      && (ContainsIgnoreCase(articles[k].title, q) || ContainsIgnoreCase(articles[k].content, q))
  {
    Where(articles, Either(TitleHit(q), BodyHit(q)))
  }

  /**
   * The `resultats_trouves` logged for a search: the number of title matches
   * plus the number of body matches. An article matching in both fields is
   * counted twice, so the count is never below the number of results and
   * equals it exactly when no article matches in both.
   */
  function LoggedCount(articles: seq<Article>, q: string): (n: nat)
    ensures n >= |Results(articles, q)|
    ensures n == |Results(articles, q)| <==>
      forall k :: 0 <= k < |articles| ==>
        !(articles[k].status == Publie
          && ContainsIgnoreCase(articles[k].title, q) && ContainsIgnoreCase(articles[k].content, q))
  {
    WhereInclusionExclusion(articles, TitleHit(q), BodyHit(q));
    WhereEmpty(articles, Both(TitleHit(q), BodyHit(q)));
    |Where(articles, TitleHit(q))| + |Where(articles, BodyHit(q))|
  }

  /** An article matching the query in both fields makes the logged count exceed the results. */
  lemma OvercountWitness(a: Article, q: string)
    requires a.status == Publie && ContainsIgnoreCase(a.title, q) && ContainsIgnoreCase(a.content, q)
    ensures LoggedCount([a], q) == 2 && |Results([a], q)| == 1
  {
    assert Where([a], TitleHit(q)) == [0];
    assert Where([a], BodyHit(q)) == [0];
    assert [a][..0] == [];
    assert Either(TitleHit(q), BodyHit(q))(a);
    assert Where([a], Either(TitleHit(q), BodyHit(q))) == [0];
  }

  /** The results do not depend on rows that are not published. */
  lemma ResultsIgnoreUnpublished(articles: seq<Article>, q: string, k: nat, a: Article)
    requires k < |articles| && articles[k].status != Publie && a.status != Publie
    ensures Results(articles[k := a], q) == Results(articles, q)
    ensures LoggedCount(articles[k := a], q) == LoggedCount(articles, q)
  {
    var edited := articles[k := a];
    WhereCongruent(edited, articles, Either(TitleHit(q), BodyHit(q)), Either(TitleHit(q), BodyHit(q)));
    WhereCongruent(edited, articles, TitleHit(q), TitleHit(q));
    WhereCongruent(edited, articles, BodyHit(q), BodyHit(q));
  }
}
