/**
 * The database the request handlers work on, and the handlers that write to
 * it. Each handler runs once per request, in sequence; the login and role
 * decorators in front of a handler are preconditions on the acting user.
 */
module Store {
  import opened Wrappers
  import opened Text
  import opened Models
  import opened Roles
  import opened Selection
  import Search
  import opened Views

  /** Where a handler redirects, or which form it renders again. */
  datatype Page =
    | RedacteurDashboardPage
    | MyArticlesPage
    | ModerationQueuePage
    | ArticlePage(id: nat)
    | ArticleCreateForm
    | ArticleEditForm(id: nat)
    | SolutionForm(id: nat)

  datatype Response = Redirect(to: Page) | Render(page: Page) | NotFound

  /** Every table at once, to say what a handler leaves untouched. */
  datatype Tables = Tables(
    users: seq<User>,
    profiles: seq<Profile>,
    categories: seq<Category>,
    articles: seq<Article>,
    solutions: seq<Solution>,
    comments: seq<Comment>,
    searches: seq<SearchRecord>,
    notes: seq<AdminNote>)

  /**
   * The guard of the article forms: title and body non-blank once stripped,
   * and a category id that names an existing category.
   */
  predicate ArticleFormAccepted(title: string, content: string, category: Option<nat>, categories: nat)
  {
    Strip(title) != "" && Strip(content) != "" && category.Some? && category.value < categories
  }

  /** The status the moderation form's `action` gives an article, if any. */
  function ArticleDecision(action: string): (r: Option<ArticleStatus>)
    ensures r == Some(Publie) <==> action == "valider"
    ensures r == Some(Brouillon) <==> action == "refuser"
    ensures r.None? <==> action != "valider" && action != "refuser"
  {
    if action == "valider" then Some(Publie)
    else if action == "refuser" then Some(Brouillon)
    else None
  }

  /** The status the moderation form's `action` gives a solution, if any. */
  function SolutionDecision(action: string): (r: Option<SolutionStatus>)
    ensures r == Some(Valide) <==> action == "valider_solution"
    ensures r == Some(Refuse) <==> action == "refuser_solution"
    ensures r.None? <==> action != "valider_solution" && action != "refuser_solution"
    ensures r.Some? ==> ArticleDecision(action).None?
  {
    if action == "valider_solution" then Some(Valide)
    else if action == "refuser_solution" then Some(Refuse)
    else None
  }

  /** The fields of the profile page's POST form; a missing field is `None` (or empty). */
  datatype ProfileRequest = ProfileRequest(
    post: bool,
    avatar: Option<string>,
    updateInfo: bool,
    firstName: Option<string>,
    lastName: Option<string>,
    email: Option<string>,
    username: Option<string>,
    sendNote: bool,
    toUser: Option<nat>,
    noteContent: string)

  /** The avatar upload branch runs when a named file was sent. */
  predicate AvatarBranch(req: ProfileRequest)
  {
    req.post && req.avatar.Some? && req.avatar.value != ""
  }

  predicate InfoBranch(req: ProfileRequest)
  {
    req.post && !AvatarBranch(req) && req.updateInfo
  }

  predicate NoteBranch(req: ProfileRequest, admin: bool)
  {
    req.post && !AvatarBranch(req) && !req.updateInfo && req.sendNote && admin
  }

  /**
   * The `update_info` branch: a field absent from the form keeps its value, a
   * present one (even empty) replaces it, and the username changes only to a
   * non-empty value. Roles are not touched.
   */
  function UpdateInfo(u: User, req: ProfileRequest): (r: User)
    ensures r.isSuperuser == u.isSuperuser && r.groups == u.groups
    ensures r.firstName == (if req.firstName.Some? then req.firstName.value else u.firstName)
    ensures r.lastName == (if req.lastName.Some? then req.lastName.value else u.lastName)
    ensures r.email == (if req.email.Some? then req.email.value else u.email)
    ensures r.username != u.username ==> req.username == Some(r.username) && r.username != ""
    ensures req.username.Some? && req.username.value != "" ==> r.username == req.username.value
  {
    var first := match req.firstName case Some(v) => v case None => u.firstName;
    var last := match req.lastName case Some(v) => v case None => u.lastName;
    var email := match req.email case Some(v) => v case None => u.email;
    var name := if req.username.Some? && req.username.value != "" then req.username.value else u.username;
    u.(firstName := first, lastName := last, email := email, username := name)
  }

  /** Attaches an uploaded avatar to the user's profile; without a profile nothing happens. */
  function SetAvatar(profiles: seq<Profile>, u: nat, file: string): (r: seq<Profile>)
    ensures |r| == |profiles|
    ensures forall k :: 0 <= k < |profiles| ==> r[k].user == profiles[k].user
    ensures forall k :: 0 <= k < |profiles| && profiles[k].user != u ==> r[k] == profiles[k]
    ensures forall k :: 0 <= k < |profiles| && profiles[k].user == u ==> r[k].avatar == Some(file)
  {
    seq(|profiles|, k requires 0 <= k < |profiles| =>
      if profiles[k].user == u then profiles[k].(avatar := Some(file)) else profiles[k])
  }

  datatype ProfilePage = ProfilePage(isAdmin: bool, recentNotes: seq<nat>, recentSentNotes: seq<nat>, allUsers: seq<User>)

  // Referential integrity, one table at a time: each foreign key is the
  // position of an existing row of the table it points to.

  predicate ProfilesLinked(profiles: seq<Profile>, users: nat)
  {
    forall k :: 0 <= k < |profiles| ==> profiles[k].user < users
  }

  predicate CategoriesLinked(categories: seq<Category>)
  {
    forall k :: 0 <= k < |categories| && categories[k].parent.Some? ==> categories[k].parent.value < |categories|
  }

  predicate ArticlesLinked(articles: seq<Article>, categories: nat, users: nat)
  {
    forall k :: 0 <= k < |articles| ==> articles[k].category < categories && articles[k].author < users
  }

  /** A nullable foreign key: empty, or the position of one of `n` rows. */
  predicate OptionalRef(ref: Option<nat>, n: nat)
  {
    ref.Some? ==> ref.value < n
  }

  predicate SolutionsLinked(solutions: seq<Solution>, articles: nat, users: nat)
  {
    forall k :: 0 <= k < |solutions| ==> solutions[k].article < articles && OptionalRef(solutions[k].author, users)
  }

  predicate CommentsLinked(comments: seq<Comment>, articles: nat, users: nat)
  {
    forall k :: 0 <= k < |comments| ==> comments[k].article < articles && OptionalRef(comments[k].author, users)
  }

  predicate SearchesLinked(searches: seq<SearchRecord>, users: nat)
  {
    forall k :: 0 <= k < |searches| ==> OptionalRef(searches[k].user, users)
  }

  predicate NotesLinked(notes: seq<AdminNote>, users: nat)
  {
    forall k :: 0 <= k < |notes| ==> notes[k].user < users
  }

  /** Every foreign key names an existing row, and no user owns two profiles. */
  predicate Consistent(t: Tables)
  {
    && ProfilesDistinct(t.profiles)
    && ProfilesLinked(t.profiles, |t.users|)
    && CategoriesLinked(t.categories)
    && ArticlesLinked(t.articles, |t.categories|, |t.users|)
    && SolutionsLinked(t.solutions, |t.articles|, |t.users|)
    && CommentsLinked(t.comments, |t.articles|, |t.users|)
    && SearchesLinked(t.searches, |t.users|)
    && NotesLinked(t.notes, |t.users|)
  }

  class KnowledgeBase {
    var users: seq<User>
    var profiles: seq<Profile>
    var categories: seq<Category>
    var articles: seq<Article>
    var solutions: seq<Solution>
    var comments: seq<Comment>
    var searches: seq<SearchRecord>
    var notes: seq<AdminNote>

    ghost function Snapshot(): Tables
      reads this
    {
      Tables(users, profiles, categories, articles, solutions, comments, searches, notes)
    }

    ghost predicate Valid()
      reads this
    {
      Consistent(Snapshot())
    }

    constructor ()
      ensures Valid()
      ensures Snapshot() == Tables([], [], [], [], [], [], [], [])
    {
      users, profiles, categories, articles := [], [], [], [];
      solutions, comments, searches, notes := [], [], [], [];
    }

    // Row writes, each keeping every foreign key valid: the raw insertion of
    // a row (`InsertUser` adds the user row alone; the profile the `post_save`
    // receiver creates is added by its caller `RegisterUser`), or the
    // replacement of rows. The handlers below write only through these.

    method InsertUser(u: User) returns (id: nat)
      requires Valid()
      modifies this
      ensures Valid()
      ensures id == |old(users)| && users == old(users) + [u]
      ensures Snapshot() == old(Snapshot()).(users := users)
    {
      id := |users|;
      users := users + [u];
    }

    method InsertProfile(u: nat)
      requires Valid() && u < |users| && ProfileCount(profiles, u) == 0
      modifies this
      ensures Valid()
      ensures profiles == old(profiles) + [Profile(u, None)]
      ensures Snapshot() == old(Snapshot()).(profiles := profiles)
    {
      profiles := profiles + [Profile(u, None)];
    }

    method ReplaceProfiles(ps: seq<Profile>)
      requires Valid() && |ps| == |profiles|
      requires forall k :: 0 <= k < |ps| ==> ps[k].user == profiles[k].user
      modifies this
      ensures Valid()
      ensures profiles == ps
      ensures Snapshot() == old(Snapshot()).(profiles := profiles)
    {
      profiles := ps;
    }

    method InsertArticle(a: Article)
      requires Valid() && a.category < |categories| && a.author < |users|
      modifies this
      ensures Valid()
      ensures articles == old(articles) + [a]
      ensures Snapshot() == old(Snapshot()).(articles := articles)
    {
      articles := articles + [a];
    }

    method ReplaceArticle(id: nat, a: Article)
      requires Valid() && id < |articles| && a.category < |categories| && a.author < |users|
      modifies this
      ensures Valid()
      ensures articles == old(articles)[id := a]
      ensures Snapshot() == old(Snapshot()).(articles := articles)
    {
      articles := articles[id := a];
    }

    method InsertSolution(sol: Solution)
      requires Valid() && sol.article < |articles| && OptionalRef(sol.author, |users|)
      modifies this
      ensures Valid()
      ensures solutions == old(solutions) + [sol]
      ensures Snapshot() == old(Snapshot()).(solutions := solutions)
    {
      solutions := solutions + [sol];
    }

    method ReplaceSolution(id: nat, sol: Solution)
      requires Valid() && id < |solutions| && sol.article < |articles| && OptionalRef(sol.author, |users|)
      modifies this
      ensures Valid()
      ensures solutions == old(solutions)[id := sol]
      ensures Snapshot() == old(Snapshot()).(solutions := solutions)
    {
      solutions := solutions[id := sol];
    }

    method InsertComment(c: Comment)
      requires Valid() && c.article < |articles| && OptionalRef(c.author, |users|)
      modifies this
      ensures Valid()
      ensures comments == old(comments) + [c]
      ensures Snapshot() == old(Snapshot()).(comments := comments)
    {
      comments := comments + [c];
    }

    method InsertSearch(r: SearchRecord)
      requires Valid() && OptionalRef(r.user, |users|)
      modifies this
      ensures Valid()
      ensures searches == old(searches) + [r]
      ensures Snapshot() == old(Snapshot()).(searches := searches)
    {
      searches := searches + [r];
    }

    method ReplaceNotes(ns: seq<AdminNote>)
      requires Valid() && NotesLinked(ns, |users|)
      modifies this
      ensures Valid()
      ensures notes == ns
      ensures Snapshot() == old(Snapshot()).(notes := notes)
    {
      notes := ns;
    }

    /** An administrator adds a category (through the admin site). */
    method AddCategory(c: Category) returns (id: nat)
      requires Valid()
      requires OptionalRef(c.parent, |categories|)
      modifies this
      ensures Valid()
      ensures id == |old(categories)| && categories == old(categories) + [c]
      ensures Snapshot() == old(Snapshot()).(categories := categories)
    {
      id := |categories|;
      categories := categories + [c];
    }

    /**
     * Saving a new user: the `post_save` receiver creates its profile, so the
     * new user owns exactly one.
     */
    method RegisterUser(u: User) returns (id: nat)
      requires Valid()
      modifies this
      ensures Valid()
      ensures id == |old(users)| && users == old(users) + [u]
      ensures profiles == old(profiles) + [Profile(id, None)]
      ensures ProfileCount(profiles, id) == 1
      ensures Snapshot() == old(Snapshot()).(users := users, profiles := profiles)
    {
      id := InsertUser(u);
      assert ProfileCount(profiles, id) == 0 by {
        WhereEmpty(profiles, ProfileOf(id));
      }
      WhereAppend(profiles, Profile(id, None), ProfileOf(id));
      InsertProfile(id);
    }

    /**
     * Saving an existing user: the receiver's `get_or_create` adds a profile
     * only when the user has none, so afterwards the user owns exactly one,
     * and saving again adds nothing.
     */
    method SaveUser(id: nat, u: User)
      requires Valid() && id < |users|
      modifies this
      ensures Valid()
      ensures users == old(users)[id := u]
      ensures ProfileCount(profiles, id) == 1
      ensures ProfileCount(old(profiles), id) == 1 ==> profiles == old(profiles)
      ensures ProfileCount(old(profiles), id) == 0 ==> profiles == old(profiles) + [Profile(id, None)]
      ensures Snapshot() == old(Snapshot()).(users := users, profiles := profiles)
    {
      DistinctProfilesAtMostOne(profiles, id);
      var existing := FindProfile(profiles, id);
      if existing.None? {
        WhereAppend(profiles, Profile(id, None), ProfileOf(id));
        InsertProfile(id);
      }
      users := users[id := u];
    }

    /** `creer_article`, for a redactor. */
    method CreateArticle(actor: nat, post: bool, title: string, content: string, category: Option<nat>)
      returns (resp: Response)
      requires Valid() && actor < |users| && IsRedacteur(users[actor])
      modifies this
      ensures Valid()
      ensures Snapshot() == old(Snapshot()).(articles := articles)
      ensures var accepted := post && ArticleFormAccepted(title, content, category, |categories|);
        && (accepted ==>
              && articles == old(articles) + [NewArticle(Strip(title), Strip(content), category.value, actor)]
              && resp == Redirect(RedacteurDashboardPage))
        && (!accepted ==> articles == old(articles) && resp == Render(ArticleCreateForm))
    {
      if post && ArticleFormAccepted(title, content, category, |categories|) {
        InsertArticle(NewArticle(Strip(title), Strip(content), category.value, actor));
        resp := Redirect(RedacteurDashboardPage);
      } else {
        resp := Render(ArticleCreateForm);
      }
    }

    /**
     * `editer_article`, for a redactor: only the author can reach the article;
     * an accepted edit replaces title, body and category and sends the
     * article back to moderation, whatever its status was.
     */
    method EditArticle(actor: nat, id: nat, post: bool, title: string, content: string, category: Option<nat>)
      returns (resp: Response)
      requires Valid() && actor < |users| && IsRedacteur(users[actor])
      modifies this
      ensures Valid()
      ensures Snapshot() == old(Snapshot()).(articles := articles)
      ensures |articles| == |old(articles)|
      ensures !(id < |old(articles)| && old(articles)[id].author == actor) ==>
        resp == NotFound && articles == old(articles)
      ensures id < |old(articles)| && old(articles)[id].author == actor
              && post && ArticleFormAccepted(title, content, category, |categories|) ==>
        && articles == old(articles)[id := old(articles)[id].(
             title := Strip(title), content := Strip(content), category := category.value, status := EnAttente)]
        && resp == Redirect(MyArticlesPage)
      ensures id < |old(articles)| && old(articles)[id].author == actor
              && !(post && ArticleFormAccepted(title, content, category, |categories|)) ==>
        articles == old(articles) && resp == Render(ArticleEditForm(id))
    {
      if !(id < |articles| && articles[id].author == actor) {
        resp := NotFound;
      } else if post && ArticleFormAccepted(title, content, category, |categories|) {
        ReplaceArticle(id, articles[id].(title := Strip(title), content := Strip(content), category := category.value, status := EnAttente));
        resp := Redirect(MyArticlesPage);
      } else {
        resp := Render(ArticleEditForm(id));
      }
    }

    /**
     * `valider_article`, for any signed-in user: `valider` publishes the
     * article, `refuser` sends it back to draft; `valider_solution` and
     * `refuser_solution` decide one solution of this article, named by
     * `solutionId`, and leave the article alone.
     */
    method ModerateArticle(actor: nat, id: nat, post: bool, action: string, solutionId: Option<nat>)
      returns (resp: Response)
      requires Valid() && actor < |users|
      modifies this
      ensures Valid()
      ensures Snapshot() == old(Snapshot()).(articles := articles, solutions := solutions)
      ensures id >= |old(articles)| ==> resp == NotFound && articles == old(articles) && solutions == old(solutions)
      ensures id < |old(articles)| && (!post || (ArticleDecision(action).None? && SolutionDecision(action).None?)) ==>
        resp == Redirect(ModerationQueuePage) && articles == old(articles) && solutions == old(solutions)
      ensures id < |old(articles)| && post && ArticleDecision(action).Some? ==>
        && resp == Redirect(ModerationQueuePage)
        && articles == old(articles)[id := old(articles)[id].(status := ArticleDecision(action).value)]
        && solutions == old(solutions)
      ensures id < |old(articles)| && post && SolutionDecision(action).Some? ==>
        articles == old(articles)
        && if solutionId.Some? && solutionId.value < |old(solutions)| && old(solutions)[solutionId.value].article == id
           then
             && resp == Redirect(ModerationQueuePage)
             && solutions == old(solutions)[solutionId.value := old(solutions)[solutionId.value].(status := SolutionDecision(action).value)]
           else
             resp == NotFound && solutions == old(solutions)
    {
      if id >= |articles| {
        return NotFound;
      }
      resp := Redirect(ModerationQueuePage);
      if post {
        var verdict := ArticleDecision(action);
        if verdict.Some? {
          ReplaceArticle(id, articles[id].(status := verdict.value));
        }
        var decision := SolutionDecision(action);
        if decision.Some? {
          if solutionId.Some? && solutionId.value < |solutions| && solutions[solutionId.value].article == id {
            var sid := solutionId.value;
            ReplaceSolution(sid, solutions[sid].(status := decision.value));
          } else {
            resp := NotFound;
          }
        }
      }
    }

    /**
     * `proposer_solution`, for a signed-in user: any existing article, of any
     * status, accepts a non-blank solution, which starts pending.
     */
    method ProposeSolution(actor: nat, id: nat, post: bool, content: string) returns (resp: Response)
      requires Valid() && actor < |users|
      modifies this
      ensures Valid()
      ensures Snapshot() == old(Snapshot()).(solutions := solutions)
      ensures id >= |articles| ==> resp == NotFound && solutions == old(solutions)
      ensures id < |articles| && post && Strip(content) != "" ==>
        && solutions == old(solutions) + [NewSolution(id, Strip(content), Some(actor))]
        && resp == Redirect(ArticlePage(id))
      ensures id < |articles| && !(post && Strip(content) != "") ==>
        solutions == old(solutions) && resp == Render(SolutionForm(id))
    {
      if id >= |articles| {
        return NotFound;
      }
      if post && Strip(content) != "" {
        InsertSolution(NewSolution(id, Strip(content), Some(actor)));
        resp := Redirect(ArticlePage(id));
      } else {
        resp := Render(SolutionForm(id));
      }
    }

    /**
     * `ajouter_commentaire`, for a signed-in user: only a published article
     * takes comments, and only non-blank ones.
     */
    method AddComment(actor: nat, id: nat, post: bool, content: string) returns (resp: Response)
      requires Valid() && actor < |users|
      modifies this
      ensures Valid()
      ensures Snapshot() == old(Snapshot()).(comments := comments)
      ensures !(id < |articles| && articles[id].status == Publie) ==> resp == NotFound && comments == old(comments)
      ensures id < |articles| && articles[id].status == Publie ==>
        && resp == Redirect(ArticlePage(id))
        && comments == old(comments) + (if post && Strip(content) != "" then [Comment(id, Some(actor), Strip(content))] else [])
    {
      if !(id < |articles| && articles[id].status == Publie) {
        return NotFound;
      }
      if post && Strip(content) != "" {
        InsertComment(Comment(id, Some(actor), Strip(content)));
      }
      resp := Redirect(ArticlePage(id));
    }

    /**
     * `search_view`: a non-empty query logs exactly one search with the
     * summed count and returns the matching published articles; the answer of
     * the generative model, when one is configured, is passed through and
     * never affects the results. An empty query does nothing.
     */
    method RunSearch(viewer: Option<nat>, ip: Option<string>, query: string, aiReply: Option<string>)
      returns (results: seq<nat>, aiAnswer: Option<string>)
      requires Valid() && (viewer.Some? ==> viewer.value < |users|)
      modifies this
      ensures Valid()
      ensures Snapshot() == old(Snapshot()).(searches := searches)
      ensures query == "" ==> results == [] && aiAnswer == None && searches == old(searches)
      ensures query != "" ==>
        && results == Search.Results(articles, query)
        && searches == old(searches) + [SearchRecord(query, viewer, ip, Search.LoggedCount(articles, query))]
        && searches[|searches| - 1].found >= |results|
        && aiAnswer == aiReply
    {
      if query == "" {
        return [], None;
      }
      var count := Search.LoggedCount(articles, query);
      InsertSearch(SearchRecord(query, viewer, ip, count));
      results := Search.Results(articles, query);
      aiAnswer := aiReply;
    }

    /** The avatar branch of `profile_view`: the uploaded file goes on the user's profile. */
    method UploadAvatar(actor: nat, file: string)
      requires Valid() && actor < |users|
      modifies this
      ensures Valid()
      ensures profiles == SetAvatar(old(profiles), actor, file)
      ensures Snapshot() == old(Snapshot()).(profiles := profiles)
    {
      ReplaceProfiles(SetAvatar(profiles, actor, file));
    }

    /**
     * The note branch of `profile_view`: a note is created, unseen, only for
     * an existing recipient and a non-blank text.
     */
    method SendNote(recipient: Option<nat>, content: string)
      requires Valid()
      modifies this
      ensures Valid()
      ensures recipient.Some? && recipient.value < |users| && Strip(content) != "" ==>
        notes == old(notes) + [NewNote(recipient.value, Strip(content))]
      ensures !(recipient.Some? && recipient.value < |users| && Strip(content) != "") ==> notes == old(notes)
      ensures Snapshot() == old(Snapshot()).(notes := notes)
    {
      if recipient.Some? && recipient.value < |users| && Strip(content) != "" {
        ReplaceNotes(notes + [NewNote(recipient.value, Strip(content))]);
      } else {
        assert old(notes) + [] == notes;
      }
    }

    /**
     * The POST part of `profile_view`. At most one branch runs, in the order
     * avatar upload, account details, note sending. Notes are sent only by
     * an administrator, as judged before the request changes anything.
     */
    method ProfilePost(actor: nat, req: ProfileRequest)
      requires Valid() && actor < |users|
      modifies this
      ensures Valid()
      ensures Snapshot() == old(Snapshot()).(users := users, profiles := profiles, notes := notes)
      ensures AvatarBranch(req) ==>
        users == old(users) && profiles == SetAvatar(old(profiles), actor, req.avatar.value)
      ensures InfoBranch(req) ==>
        && users == old(users)[actor := UpdateInfo(old(users)[actor], req)]
        && ProfileCount(profiles, actor) == 1
        && (ProfileCount(old(profiles), actor) == 1 ==> profiles == old(profiles))
      ensures InfoBranch(req) && ProfileCount(old(profiles), actor) == 0 ==>
        profiles == old(profiles) + [Profile(actor, None)]
      ensures !AvatarBranch(req) && !InfoBranch(req) ==> users == old(users) && profiles == old(profiles)
      ensures var sent := NoteBranch(req, IsAdmin(old(users)[actor])) && req.toUser.Some? && req.toUser.value < |old(users)|
                          && Strip(req.noteContent) != "";
        notes == old(notes) + (if sent then [NewNote(req.toUser.value, Strip(req.noteContent))] else [])
    {
      if AvatarBranch(req) {
        UploadAvatar(actor, req.avatar.value);
      } else if InfoBranch(req) {
        SaveUser(actor, UpdateInfo(users[actor], req));
      } else if NoteBranch(req, IsAdmin(users[actor])) {
        SendNote(req.toUser, req.noteContent);
      }
    }

    /**
     * `profile_view`, for a signed-in user. At most one POST branch runs, in
     * the order avatar, account details, note sending (administrators only).
     * Then an administrator's page lists the newest notes sent and every
     * user, and changes no seen flag; a non-administrator's page marks all of
     * their own notes seen and lists their newest ten.
     */
    method ProfileView(actor: nat, req: ProfileRequest) returns (page: ProfilePage)
      requires Valid() && actor < |users|
      modifies this
      ensures Valid()
      ensures Snapshot() == old(Snapshot()).(users := users, profiles := profiles, notes := notes)
      ensures page.isAdmin == IsAdmin(old(users)[actor])
      ensures AvatarBranch(req) ==>
        users == old(users) && profiles == SetAvatar(old(profiles), actor, req.avatar.value)
      ensures InfoBranch(req) ==>
        && users == old(users)[actor := UpdateInfo(old(users)[actor], req)]
        && ProfileCount(profiles, actor) == 1
        && (ProfileCount(old(profiles), actor) == 1 ==> profiles == old(profiles))
      ensures InfoBranch(req) && ProfileCount(old(profiles), actor) == 0 ==>
        profiles == old(profiles) + [Profile(actor, None)]
      ensures !AvatarBranch(req) && !InfoBranch(req) ==> users == old(users) && profiles == old(profiles)
      ensures page.isAdmin ==>
        var sent := NoteBranch(req, true) && req.toUser.Some? && req.toUser.value < |old(users)|
                    && Strip(req.noteContent) != "";
        && notes == old(notes) + (if sent then [NewNote(req.toUser.value, Strip(req.noteContent))] else [])
        && page == ProfilePage(true, [], RecentSentNotes(notes), users)
      ensures !page.isAdmin ==>
        && notes == MarkSeen(old(notes), actor)
        && page == ProfilePage(false, RecentNotes(notes, actor), [], [])
      ensures !page.isAdmin ==> UnseenCount(notes, actor) == 0
      ensures !page.isAdmin ==> forall v :: v != actor ==> UnseenCount(notes, v) == UnseenCount(old(notes), v)
    {
      var admin := IsAdmin(users[actor]);
      ProfilePost(actor, req);
      if admin {
        page := ProfilePage(true, [], RecentSentNotes(notes), users);
      } else {
        ghost var before := notes;
        assert before == old(notes);
        ReplaceNotes(MarkSeen(notes, actor));
        MarkSeenClears(before, actor);
        forall v | v != actor
          ensures UnseenCount(notes, v) == UnseenCount(before, v)
        {
          MarkSeenFrame(before, actor, v);
        }
        page := ProfilePage(false, RecentNotes(notes, actor), [], []);
      }
    }
  }
}
