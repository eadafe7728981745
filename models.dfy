/**
 * The records of the knowledge base. A table is a sequence of rows and a row's
 * primary key is its position: no handler of the model deletes a row, so the
 * position is the auto-increment id and, since `date_creation` is stamped on
 * insertion, a higher position is a later creation.
 */
module Models {
  import opened Wrappers
  import opened Text

  /** The four choices of `Article.statut`. */
  datatype ArticleStatus = Brouillon | EnAttente | Publie | Archive

  /** The three choices of `Solution.statut`. */
  datatype SolutionStatus = SolutionEnAttente | Valide | Refuse

  const DefaultArticleStatus: ArticleStatus := Brouillon
  const DefaultSolutionStatus: SolutionStatus := SolutionEnAttente

  /** The value stored in the `statut` column of an article. */
  function ArticleStatusCode(s: ArticleStatus): string
  {
    match s
    case Brouillon => "brouillon"
    case EnAttente => "en_attente"
    case Publie => "publie"
    case Archive => "archive"
  }

  /** Reads a stored `statut` value back; anything outside the choice list is refused. */
  function ParseArticleStatus(code: string): (r: Option<ArticleStatus>)
    ensures r.Some? <==> code in ["brouillon", "en_attente", "publie", "archive"]
    ensures r.Some? ==> ArticleStatusCode(r.value) == code
  {
    if code == "brouillon" then Some(Brouillon)
    else if code == "en_attente" then Some(EnAttente)
    else if code == "publie" then Some(Publie)
    else if code == "archive" then Some(Archive)
    else None
  }

  /** Stored codes and statuses are in one-to-one correspondence, in both directions. */
  lemma ArticleStatusCodeRoundTrip(s: ArticleStatus, code: string)
    ensures ParseArticleStatus(code) == Some(s) <==> ArticleStatusCode(s) == code
  {
  }

  function SolutionStatusCode(s: SolutionStatus): string
  {
    match s
    case SolutionEnAttente => "en_attente"
    case Valide => "valide"
    case Refuse => "refuse"
  }

  function ParseSolutionStatus(code: string): (r: Option<SolutionStatus>)
    ensures r.Some? <==> code in ["en_attente", "valide", "refuse"]
    ensures r.Some? ==> SolutionStatusCode(r.value) == code
  {
    if code == "en_attente" then Some(SolutionEnAttente)
    else if code == "valide" then Some(Valide)
    else if code == "refuse" then Some(Refuse)
    else None
  }

  lemma SolutionStatusCodeRoundTrip(s: SolutionStatus, code: string)
    ensures ParseSolutionStatus(code) == Some(s) <==> SolutionStatusCode(s) == code
  {
  }

  /** A user account: the fields the handlers read or write, and its group names. */
  datatype User = User(
    username: string,
    firstName: string,
    lastName: string,
    email: string,
    isSuperuser: bool,
    groups: seq<string>)

  /** A category and its optional parent (no cycle check, as in the schema). */
  datatype Category = Category(name: string, parent: Option<nat>)

  datatype Article = Article(
    title: string,
    content: string,
    category: nat,
    author: nat,
    status: ArticleStatus,
    version: int,
    views: int)

  datatype Solution = Solution(article: nat, content: string, author: Option<nat>, status: SolutionStatus)

  datatype Comment = Comment(article: nat, author: Option<nat>, content: string)

  /** A `Recherche` row: the term, who searched, from where, and the logged count. */
  datatype SearchRecord = SearchRecord(term: string, user: Option<nat>, ip: Option<string>, found: nat)

  datatype Feedback = Feedback(article: nat, user: Option<nat>, rating: int, comment: string)

  datatype Profile = Profile(user: nat, avatar: Option<string>)

  datatype AdminNote = AdminNote(user: nat, content: string, seen: bool)

  /**
   * The row `Article.objects.create(...)` inserts from the article form: the
   * status is set to pending explicitly, and `version` and `vues` keep their
   * column defaults.
   */
  function NewArticle(title: string, content: string, category: nat, author: nat): (a: Article)
    ensures a.status == EnAttente && a.status != DefaultArticleStatus
    ensures a.version == 1 && a.views == 0
    ensures a.title == title && a.content == content && a.category == category && a.author == author
  {
    Article(title, content, category, author, EnAttente, 1, 0)
  }

  /** A proposed solution starts at the column default, pending. */
  function NewSolution(article: nat, content: string, author: Option<nat>): (s: Solution)
    ensures s.status == DefaultSolutionStatus
    ensures s.article == article && s.content == content && s.author == author
  {
    Solution(article, content, author, SolutionEnAttente)
  }

  /** A note is created unseen. */
  function NewNote(user: nat, content: string): (n: AdminNote)
    ensures !n.seen && n.user == user && n.content == content
  {
    AdminNote(user, content, false)
  }

  /** The choices of `Feedback.note`: `range(1, 6)`. */
  function RatingChoices(): (r: seq<int>)
    ensures |r| == 5
    ensures forall n :: n in r <==> 1 <= n <= 5
  {
    [1, 2, 3, 4, 5]
  }

  /** `str(commentaire)`: the article title, then the author's username or 'Anonyme'. */
  function CommentLabel(articleTitle: string, author: Option<User>): (s: string)
    ensures var prefix := "Commentaire sur " + articleTitle + " par ";
            var name := if author.Some? then author.value.username else "Anonyme";
            |s| == |prefix| + |name| && s[..|prefix|] == prefix && s[|prefix|..] == name
  {
    var name := match author
      case Some(u) => u.username
      case None => "Anonyme";
    "Commentaire sur " + articleTitle + " par " + name
  }

  /** `str(recherche)`: "Recherche: {terme} ({n} résultats)". */
  function SearchLabel(term: string, found: nat): (s: string)
    ensures var head := "Recherche: " + term + " (";
            var tail := " résultats)";
            && |s| > |head| + |tail|
            && s[..|head|] == head
            && s[|s| - |tail|..] == tail
  {
    "Recherche: " + term + " (" + DecimalDigits(found) + " résultats)"
  }

  /** The label of a search determines its count: the digits between the fixed parts read back as `found`. */
  lemma SearchLabelCount(term: string, found: nat)
    ensures var s := SearchLabel(term, found);
            var start := |"Recherche: " + term + " ("|;
            var stop := |s| - |" résultats)"|;
            start <= stop
            && (forall i :: start <= i < stop ==> IsDigit(s[i]))
            && DecimalValue(s[start..stop]) == found
  {
    var s := SearchLabel(term, found);
    var start := |"Recherche: " + term + " ("|;
    var stop := |s| - |" résultats)"|;
    assert s[start..stop] == DecimalDigits(found);
    DecimalRoundTrip(found);
  }

  /** Two labels of the same term with different counts differ. */
  lemma SearchLabelInjective(term: string, m: nat, n: nat)
    requires SearchLabel(term, m) == SearchLabel(term, n)
    ensures m == n
  {
    SearchLabelCount(term, m);
    SearchLabelCount(term, n);
  }

  /** `str(solution)`: "Solution pour {titre} ({statut})" with the stored status code. */
  function SolutionLabel(articleTitle: string, sol: Solution): (s: string)
    ensures var head := "Solution pour " + articleTitle + " (";
            && |s| > |head| + 1
            && s[..|head|] == head
            && s[|s| - 1] == ')'
            && ParseSolutionStatus(s[|head|..|s| - 1]) == Some(sol.status)
  {
    var head := "Solution pour " + articleTitle + " (";
    var code := SolutionStatusCode(sol.status);
    var s := head + code + ")";
    assert s[|head|..|s| - 1] == code;
    assert |code| >= 6;
    s
  }

  /** `str(note)`: "Note admin pour {username} - vue|non vue". */
  function NoteLabel(recipient: User, n: AdminNote): (s: string)
    ensures var head := "Note admin pour " + recipient.username + " - ";
            && |s| >= |head|
            && s[..|head|] == head
            && s[|head|..] == (if n.seen then "vue" else "non vue")
  {
    var head := "Note admin pour " + recipient.username + " - ";
    var s := head + (if n.seen then "vue" else "non vue");
    assert s[|head|..] == (if n.seen then "vue" else "non vue");
    s
  }

  /** Only an unseen note's label ends in "non vue". */
  lemma NoteLabelSeen(recipient: User, n: AdminNote)
    ensures var s := NoteLabel(recipient, n);
            |s| >= 7 && (!n.seen <==> s[|s| - 7..] == "non vue")
  {
    var s := NoteLabel(recipient, n);
    var head := "Note admin pour " + recipient.username + " - ";
    if n.seen {
      assert s[|s| - 6] == ' ';
    } else {
      assert s[|s| - 7..] == s[|head|..];
    }
  }

  /** `str(feedback)`: "Feedback {note}/5 sur {titre}". */
  function FeedbackLabel(f: Feedback, articleTitle: string): (s: string)
    ensures var head := "Feedback ";
            var tail := "/5 sur " + articleTitle;
            && |s| > |head| + |tail|
            && s[..|head|] == head
            && s[|s| - |tail|..] == tail
            && s[|head|..|s| - |tail|] == IntToString(f.rating)
  {
    var head := "Feedback ";
    var tail := "/5 sur " + articleTitle;
    var s := head + IntToString(f.rating) + tail;
    assert s[|head|..|s| - |tail|] == IntToString(f.rating);
    s
  }

  /** `str(profile)`: "Profil de {username}". */
  function ProfileLabel(owner: User): (s: string)
    ensures |s| == |"Profil de "| + |owner.username|
    ensures s[..|"Profil de "|] == "Profil de " && s[|"Profil de "|..] == owner.username
  {
    "Profil de " + owner.username
  }
}
