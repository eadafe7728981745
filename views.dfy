/**
 * The read-only parts of the handlers: the home page, the article page, the
 * dashboards, the notes listed on the profile page, and the bulk update that
 * marks a user's notes as seen.
 */
module Views {
  import opened Wrappers
  import opened Models
  import opened Selection

  function HasStatus(s: ArticleStatus): Article -> bool
  {
    (a: Article) => a.status == s
  }

  function AnyArticle(): Article -> bool
  {
    (a: Article) => true
  }

  function ByAuthor(u: nat): Article -> bool
  {
    (a: Article) => a.author == u
  }

  function InCategory(c: nat): Article -> bool
  {
    (a: Article) => a.category == c
  }

  function NoteFor(u: nat): AdminNote -> bool
  {
    (n: AdminNote) => n.user == u
  }

  function AnyNote(): AdminNote -> bool
  {
    (n: AdminNote) => true
  }

  function UnseenBy(u: nat): AdminNote -> bool
  {
    (n: AdminNote) => n.user == u && !n.seen
  }

  function ProfileOf(u: nat): Profile -> bool
  {
    (p: Profile) => p.user == u
  }

  // ---------------------------------------------------------------- profiles

  /** The number of `Profile` rows attached to user `u`. */
  function ProfileCount(profiles: seq<Profile>, u: nat): (n: nat)
    ensures n == |set k | 0 <= k < |profiles| && profiles[k].user == u|
  {
    WhereCount(profiles, ProfileOf(u));
    assert Positions(profiles, ProfileOf(u)) == set k | 0 <= k < |profiles| && profiles[k].user == u;
    |Where(profiles, ProfileOf(u))|
  }

  /** The one-to-one link from `Profile` to `User`: no user owns two profiles. */
  predicate ProfilesDistinct(profiles: seq<Profile>)
  {
    forall i, j :: 0 <= i < j < |profiles| ==> profiles[i].user != profiles[j].user
  }

  /** Under the one-to-one link a user has no profile or exactly one. */
  lemma {:induction false} DistinctProfilesAtMostOne(profiles: seq<Profile>, u: nat)
    requires ProfilesDistinct(profiles)
    ensures ProfileCount(profiles, u) <= 1
    decreases |profiles|
  {
    if profiles != [] {
      var n := |profiles| - 1;
      var prefix := profiles[..n];
      DistinctProfilesAtMostOne(prefix, u);
      assert profiles == prefix + [profiles[n]];
      WhereAppend(prefix, profiles[n], ProfileOf(u));
      if profiles[n].user == u {
        assert forall k :: 0 <= k < n ==> prefix[k].user != u;
        WhereEmpty(prefix, ProfileOf(u));
      }
    }
  }

  /** `getattr(user, 'profile', None)`: the position of the user's profile, if there is one. */
  function FindProfile(profiles: seq<Profile>, u: nat): (r: Option<nat>)
    ensures r.Some? ==> r.value < |profiles| && profiles[r.value].user == u
    ensures r.None? <==> ProfileCount(profiles, u) == 0
    ensures r.None? ==> forall k :: 0 <= k < |profiles| ==> profiles[k].user != u
  {
    var ids := Where(profiles, ProfileOf(u));
    WhereEmpty(profiles, ProfileOf(u));
    if ids == [] then None else assert ids[0] in ids; Some(ids[0])
  }

  // ------------------------------------------------------------------- notes

  /** `AdminNote.objects.filter(user=u, est_vu=False).count()` */
  function UnseenCount(notes: seq<AdminNote>, u: nat): (c: nat)
    ensures c == |set k | 0 <= k < |notes| && notes[k].user == u && !notes[k].seen|
  {
    WhereCount(notes, UnseenBy(u));
    assert Positions(notes, UnseenBy(u)) == set k | 0 <= k < |notes| && notes[k].user == u && !notes[k].seen;
    |Where(notes, UnseenBy(u))|
  }

  /**
   * `AdminNote.objects.filter(user=u, est_vu=False).update(est_vu=True)`. No
   * note is added or removed, recipients and texts stay, and a seen note stays
   * seen.
   */
  function MarkSeen(notes: seq<AdminNote>, u: nat): (r: seq<AdminNote>)
    ensures |r| == |notes|
    ensures forall i :: 0 <= i < |notes| ==>
      r[i].user == notes[i].user && r[i].content == notes[i].content && (notes[i].seen ==> r[i].seen)
  {
    seq(|notes|, i requires 0 <= i < |notes| =>
      if notes[i].user == u && !notes[i].seen then notes[i].(seen := true) else notes[i])
  }

  /** After the update the user has no unseen note left. */
  lemma MarkSeenClears(notes: seq<AdminNote>, u: nat)
    ensures UnseenCount(MarkSeen(notes, u), u) == 0
    ensures forall i :: 0 <= i < |notes| && notes[i].user == u ==> MarkSeen(notes, u)[i].seen
  {
    var r := MarkSeen(notes, u);
    WhereEmpty(r, UnseenBy(u));
  }

  /** The update touches no other user's note, so their unseen counts stay. */
  lemma MarkSeenFrame(notes: seq<AdminNote>, u: nat, v: nat)
    requires v != u
    ensures forall i :: 0 <= i < |notes| && notes[i].user != u ==> MarkSeen(notes, u)[i] == notes[i]
    ensures UnseenCount(MarkSeen(notes, u), v) == UnseenCount(notes, v)
  {
    WhereCongruent(MarkSeen(notes, u), notes, UnseenBy(v), UnseenBy(v));
  }

  /** Running the update again changes nothing. */
  lemma MarkSeenIdempotent(notes: seq<AdminNote>, u: nat)
    ensures MarkSeen(MarkSeen(notes, u), u) == MarkSeen(notes, u)
  {
  }

  /** The notes listed on a non-administrator's profile page: the newest ten of their own. */
  function RecentNotes(notes: seq<AdminNote>, u: nat): (r: seq<nat>)
    ensures |r| <= 10 && Descending(r)
    ensures forall k :: k in r ==> k < |notes| && notes[k].user == u
    ensures forall k :: 0 <= k < |notes| && notes[k].user == u && k !in r ==>
      |r| == 10 && forall j :: j in r ==> k < j
  {
    Newest(notes, NoteFor(u), 10)
  }

  /** The notes listed on an administrator's profile page: the newest ten of all, whoever received them. */
  function RecentSentNotes(notes: seq<AdminNote>): (r: seq<nat>)
    ensures |r| <= 10 && Descending(r)
    ensures forall k :: k in r ==> k < |notes|
    ensures forall k :: 0 <= k < |notes| && k !in r ==> |r| == 10 && forall j :: j in r ==> k < j
  {
    Newest(notes, AnyNote(), 10)
  }

  // -------------------------------------------------------------------- home

  datatype HomePage = HomePage(latest: seq<nat>, unseenNotes: nat, avatar: Option<string>)

  /**
   * `home`: the four newest published articles, and for a signed-in viewer the
   * number of their unseen notes and their avatar, if their profile has one.
   */
  function Home(articles: seq<Article>, notes: seq<AdminNote>, profiles: seq<Profile>, viewer: Option<nat>): (h: HomePage)
    ensures |h.latest| <= 4 && Descending(h.latest)
    ensures forall k :: k in h.latest ==> k < |articles| && articles[k].status == Publie
    ensures forall k :: 0 <= k < |articles| && articles[k].status == Publie && k !in h.latest ==>
      |h.latest| == 4 && forall j :: j in h.latest ==> k < j
    ensures viewer.None? ==> h.unseenNotes == 0 && h.avatar.None?
    ensures viewer.Some? ==> h.unseenNotes == UnseenCount(notes, viewer.value)
    ensures h.avatar.Some? ==>
      viewer.Some? && h.avatar.value != ""
      && exists k :: 0 <= k < |profiles| && profiles[k] == Profile(viewer.value, h.avatar)
    ensures viewer.Some? && ProfilesDistinct(profiles) ==>
      forall k :: 0 <= k < |profiles| && profiles[k].user == viewer.value ==>
        h.avatar == if profiles[k].avatar.Some? && profiles[k].avatar.value != "" then profiles[k].avatar else None
  {
    var latest := Newest(articles, HasStatus(Publie), 4);
    match viewer
    case None => HomePage(latest, 0, None)
    case Some(u) =>
      var avatar := match FindProfile(profiles, u)
        case Some(k) => if profiles[k].avatar.Some? && profiles[k].avatar.value != "" then profiles[k].avatar else None
        case None => None;
      HomePage(latest, UnseenCount(notes, u), avatar)
  }

  // ------------------------------------------------------------ article page

  datatype DetailPage = DetailPage(article: Article, solutions: seq<nat>, comments: seq<nat>)

  function OnArticle(id: nat): Comment -> bool
  {
    (c: Comment) => c.article == id
  }

  function ValidatedFor(id: nat): Solution -> bool
  {
    (s: Solution) => s.article == id && s.status == Valide
  }

  /**
   * `article_detail`: found only when the article is published; it then lists
   * the article's validated solutions and all its comments, newest first.
   */
  function ArticleDetail(articles: seq<Article>, solutions: seq<Solution>, comments: seq<Comment>, id: nat): (r: Option<DetailPage>)
    ensures r.Some? <==> id < |articles| && articles[id].status == Publie
    ensures r.Some? ==> r.value.article == articles[id]
    ensures r.Some? ==> Ascending(r.value.solutions)
    ensures r.Some? ==> forall k: nat :: k in r.value.solutions <==>
      k < |solutions| && solutions[k].article == id && solutions[k].status == Valide
    ensures r.Some? ==> Descending(r.value.comments)
    ensures r.Some? ==> forall k: nat :: k in r.value.comments <==> k < |comments| && comments[k].article == id
  {
    if id < |articles| && articles[id].status == Publie then
      var own := Where(comments, OnArticle(id));
      NewestSlice(own, Reverse(own), Reverse(own));
      Some(DetailPage(articles[id], Where(solutions, ValidatedFor(id)), Reverse(own)))
    else
      None
  }

  // -------------------------------------------------------------- dashboards

  /** The number of articles satisfying `p` whose status is `s`. */
  function StatusCount(articles: seq<Article>, p: Article -> bool, s: ArticleStatus): nat
  {
    |Where(articles, Both(p, HasStatus(s)))|
  }

  /** Every article has one of the four statuses, so the four counts add up to the total. */
  lemma {:induction false} StatusCountsTotal(articles: seq<Article>, p: Article -> bool)
    ensures StatusCount(articles, p, Brouillon) + StatusCount(articles, p, EnAttente)
          + StatusCount(articles, p, Publie) + StatusCount(articles, p, Archive)
         == |Where(articles, p)|
    decreases |articles|
  {
    if articles != [] {
      StatusCountsTotal(articles[..|articles| - 1], p);
    }
  }

  function Sum(s: seq<nat>): nat
  {
    if s == [] then 0 else Sum(s[..|s| - 1]) + s[|s| - 1]
  }

  /**
   * `Categorie.objects.annotate(nb_articles=Count('articles'))`, in category
   * id order: entry `c` is the number of articles filed under category `c`.
   */
  function CategoryCounts(articles: seq<Article>, categories: nat): (r: seq<nat>)
    ensures |r| == categories
    ensures forall c :: 0 <= c < categories ==>
      r[c] == |set k | 0 <= k < |articles| && articles[k].category == c|
  {
    forall c | 0 <= c < categories
      ensures |Where(articles, InCategory(c))| == |set k | 0 <= k < |articles| && articles[k].category == c|
    {
      WhereCount(articles, InCategory(c));
      assert Positions(articles, InCategory(c)) == set k | 0 <= k < |articles| && articles[k].category == c;
    }
    seq(categories, c requires 0 <= c < categories => |Where(articles, InCategory(c))|)
  }

  function CategoryBelow(n: nat): Article -> bool
  {
    (a: Article) => a.category < n
  }

  lemma {:induction false} CategoryCountsPrefix(articles: seq<Article>, n: nat)
    ensures Sum(CategoryCounts(articles, n)) == |Where(articles, CategoryBelow(n))|
    decreases n
  {
    if n == 0 {
      WhereEmpty(articles, CategoryBelow(0));
    } else {
      var m := n - 1;
      CategoryCountsPrefix(articles, m);
      var counts := CategoryCounts(articles, n);
      assert counts[..m] == CategoryCounts(articles, m);
      WhereCount(articles, InCategory(m));
      WhereInclusionExclusion(articles, CategoryBelow(m), InCategory(m));
      WhereEmpty(articles, Both(CategoryBelow(m), InCategory(m)));
      WhereCongruent(articles, articles, Either(CategoryBelow(m), InCategory(m)), CategoryBelow(n));
    }
  }

  /**
   * When every article points at an existing category, the per-category
   * counts add up to the number of articles: each article is counted once.
   */
  lemma CategoryCountsTotal(articles: seq<Article>, categories: nat)
    requires forall k :: 0 <= k < |articles| ==> articles[k].category < categories
    ensures Sum(CategoryCounts(articles, categories)) == |articles|
  {
    CategoryCountsPrefix(articles, categories);
    WhereAll(articles, CategoryBelow(categories));
  }

  function ZeroResults(): SearchRecord -> bool
  {
    (r: SearchRecord) => r.found == 0
  }

  datatype AdminDashboard = AdminDashboard(
    totalArticles: nat,
    published: nat,
    pending: nat,
    totalCategories: nat,
    totalUsers: nat,
    recentArticles: seq<nat>,
    zeroResultSearches: seq<nat>,
    perCategory: seq<nat>)

  /** `admin_dashboard`: the aggregate counts and the recent lists. */
  function AdminStats(articles: seq<Article>, categories: seq<Category>, users: seq<User>, searches: seq<SearchRecord>): (d: AdminDashboard)
    ensures d.totalArticles == |articles| && d.totalCategories == |categories| && d.totalUsers == |users|
    ensures d.published == |Positions(articles, HasStatus(Publie))|
    ensures d.pending == |Positions(articles, HasStatus(EnAttente))|
    ensures d.published + d.pending <= d.totalArticles
    ensures |d.recentArticles| == if |articles| < 5 then |articles| else 5
    ensures Descending(d.recentArticles) && forall k :: k in d.recentArticles ==> k < |articles|
    ensures |d.zeroResultSearches| <= 10 && Descending(d.zeroResultSearches)
    ensures forall k :: k in d.zeroResultSearches ==> k < |searches| && searches[k].found == 0
    ensures forall k :: 0 <= k < |articles| && k !in d.recentArticles ==> forall j :: j in d.recentArticles ==> k < j
    ensures forall k :: 0 <= k < |searches| && searches[k].found == 0 && k !in d.zeroResultSearches ==>
      |d.zeroResultSearches| == 10 && forall j :: j in d.zeroResultSearches ==> k < j
    ensures d.recentArticles == Newest(articles, AnyArticle(), 5)
    ensures d.zeroResultSearches == Newest(searches, ZeroResults(), 10)
    ensures d.perCategory == CategoryCounts(articles, |categories|)
  {
    StatusCountsTotal(articles, AnyArticle());
    WhereAll(articles, AnyArticle());
    WhereCongruent(articles, articles, Both(AnyArticle(), HasStatus(Publie)), HasStatus(Publie));
    WhereCongruent(articles, articles, Both(AnyArticle(), HasStatus(EnAttente)), HasStatus(EnAttente));
    WhereCount(articles, HasStatus(Publie));
    WhereCount(articles, HasStatus(EnAttente));
    var recent := Newest(articles, AnyArticle(), 5);
    NewestFull(articles, AnyArticle(), 5);
    AdminDashboard(
      |articles|,
      StatusCount(articles, AnyArticle(), Publie),
      StatusCount(articles, AnyArticle(), EnAttente),
      |categories|,
      |users|,
      recent,
      Newest(searches, ZeroResults(), 10),
      CategoryCounts(articles, |categories|))
  }

  /** With a condition true of every row, the newest-`n` slice is as long as it can be. */
  lemma NewestFull<T>(xs: seq<T>, keep: T -> bool, n: nat)
    requires forall k :: 0 <= k < |xs| ==> keep(xs[k])
    ensures |Newest(xs, keep, n)| == if |xs| < n then |xs| else n
  {
    WhereAll(xs, keep);
  }

  /** `mes_articles`: the viewer's own articles, newest first. */
  function MyArticles(articles: seq<Article>, u: nat): (r: seq<nat>)
    ensures Descending(r)
    ensures forall k: nat :: k in r <==> k < |articles| && articles[k].author == u
    ensures |r| == |Where(articles, ByAuthor(u))|
  {
    var own := Where(articles, ByAuthor(u));
    NewestSlice(own, Reverse(own), Reverse(own));
    Reverse(own)
  }

  datatype RedacteurDashboard = RedacteurDashboard(
    mine: seq<nat>,
    published: nat,
    pending: nat,
    drafts: nat,
    recent: seq<nat>)

  /** `redacteur_dashboard`: counts over the viewer's own articles and the five newest of them. */
  function RedacteurStats(articles: seq<Article>, u: nat): (d: RedacteurDashboard)
    ensures d.mine == MyArticles(articles, u)
    ensures d.published + d.pending + d.drafts <= |d.mine|
    ensures d.published == |Positions(articles, Both(ByAuthor(u), HasStatus(Publie)))|
    ensures d.pending == |Positions(articles, Both(ByAuthor(u), HasStatus(EnAttente)))|
    ensures d.drafts == |Positions(articles, Both(ByAuthor(u), HasStatus(Brouillon)))|
    ensures d.recent <= d.mine && |d.recent| == if |d.mine| < 5 then |d.mine| else 5
  {
    var mine := MyArticles(articles, u);
    StatusCountsTotal(articles, ByAuthor(u));
    WhereCount(articles, Both(ByAuthor(u), HasStatus(Publie)));
    WhereCount(articles, Both(ByAuthor(u), HasStatus(EnAttente)));
    WhereCount(articles, Both(ByAuthor(u), HasStatus(Brouillon)));
    RedacteurDashboard(
      mine,
      StatusCount(articles, ByAuthor(u), Publie),
      StatusCount(articles, ByAuthor(u), EnAttente),
      StatusCount(articles, ByAuthor(u), Brouillon),
      mine[..if |mine| < 5 then |mine| else 5])
  }
}
