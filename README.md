# BaseDeConnaissance — a Dafny model of the knowledge base's domain logic

BaseDeConnaissance is a Django knowledge base. Redactors write articles,
moderators publish or reject them, readers propose solutions and comment,
everybody searches, and administrators leave notes on users' profile pages.
This project models what the request handlers do to the database, once the
ORM, the templates and the calls to the generative-AI service are taken away.

The database is the class `Store.KnowledgeBase`. It holds one sequence per
table: users, profiles, categories, articles, solutions, comments, searches
and admin notes. A row's primary key is its position, since no handler
deletes anything. Ordering by creation date, newest first, is ordering by
descending position.

- **State-changing handlers** are methods of the class, such as
  `creer_article`, `editer_article`, `valider_article`, `search_view` and
  `profile_view`.
  - Each states its response and the new content of every table it writes.
  - Each says that every other table is unchanged (`Snapshot()`).
  - Each keeps the invariant `Valid()`: every foreign key names an existing
    row, and no user owns two profiles.
  - The `login_required` and `user_passes_test` gates are preconditions on
    the acting user.
- **Read-only handlers and queries** are functions over the tables. These are
  `home`, `article_detail`, the two dashboards, `mes_articles`, the search
  filter and the notes lists.
  - A queryset `filter(...)` is `Selection.Where`: the ascending positions of
    the rows that satisfy a condition.
  - `order_by('-date_creation')[:n]` is `Selection.Newest`.

Module layout:

- `wrappers.dfy`: `Option`.
- `text.dfy`: Python's `str.strip`, the `icontains` test, and decimal
  rendering.
- `models.dfy`: the records, the status choices and defaults, the rows the
  handlers create, and the `__str__` formats.
- `roles.dfy`: `is_admin` and `is_redacteur`.
- `selection.dfy`: filtering, counting and newest-first slices.
- `search.dfy`: the search filter and the logged count.
- `views.dfy`: the read-only handlers.
- `store.dfy`: the database and the handlers that write to it.

Two behaviours of the code are kept as written, and their consequences are
proved:

- **The logged search count is not the number of results.** It is the number
  of published title matches plus the number of published body matches.
  - It is never smaller than the number of results.
  - It equals the number of results exactly when no published article matches
    in both fields.
  - `Search.OvercountWitness` exhibits a one-article store where it is 2
    against 1 result.
- **Moderation needs only a login.** `valider_article` is protected by login
  alone, so `ModerateArticle` requires only a signed-in actor, not an
  administrator.

`icontains` is modelled with ASCII-only case folding, which is what SQLite's
`LIKE` applies. On a database whose `UPPER` folds all of Unicode, accented
letters would also match across case.

## Model

| member | source | states |
|---|---|---|
| Text.Strip | BaseDeConnaissance/baseconnaissance/views.py:95-96 | The result is the input with a whitespace prefix and a whitespace suffix (Python's `isspace` set) removed, and itself neither starts nor ends with whitespace. It is empty exactly when every character of the input is whitespace, which is when a form field counts as blank. |
| Text.StripIdempotent | BaseDeConnaissance/baseconnaissance/views.py:95-96 | Stripping an already stripped value changes nothing. |
| Text.Contains | BaseDeConnaissance/baseconnaissance/views.py:219-225 | Substring test: true exactly when the needle occurs at some position of the haystack. |
| Text.ContainsIgnoreCase | BaseDeConnaissance/baseconnaissance/views.py:221-224 | `icontains`: true exactly when, at some position, the query matches the field character by character once both are case folded. |
| Text.EmptyQueryMatchesEverything | BaseDeConnaissance/baseconnaissance/views.py:217 | `icontains ''` would select every row, which is why an empty query is not searched. |
| Text.DecimalDigits | BaseDeConnaissance/baseconnaissance/models.py:74-75 | The rendering of a count is non-empty, all digits, and has no leading zero. |
| Text.DecimalRoundTrip | BaseDeConnaissance/baseconnaissance/models.py:74-75 | Reading the rendered digits back gives the number. |
| Text.DecimalDigitsInjective | BaseDeConnaissance/baseconnaissance/models.py:74-75 | Different counts render differently. |
| Text.IntToString | BaseDeConnaissance/baseconnaissance/models.py:84-85 | A rendered integer starts with '-' exactly when it is negative. The rest is a non-empty run of digits, with no leading zero, whose value is the integer's absolute value. |
| Models.ParseArticleStatus | BaseDeConnaissance/baseconnaissance/models.py:14-19 | A stored status code is accepted exactly when it is one of the four codes 'brouillon', 'en_attente', 'publie', 'archive', and the accepted status stores back as that same code. |
| Models.ArticleStatusCodeRoundTrip | BaseDeConnaissance/baseconnaissance/models.py:14-19 | Parsing a code gives a status exactly when that status's code is the code, so the choices and their codes are in one-to-one correspondence. |
| Models.ParseSolutionStatus | BaseDeConnaissance/baseconnaissance/models.py:35-39 | A stored solution status is accepted exactly when it is one of the codes 'en_attente', 'valide', 'refuse', and the accepted status stores back as that same code. |
| Models.SolutionStatusCodeRoundTrip | BaseDeConnaissance/baseconnaissance/models.py:35-39 | Solution status codes and statuses correspond one to one. |
| Models.NewArticle | BaseDeConnaissance/baseconnaissance/views.py:102-108 | A created article is pending review, which is not the column default (draft). It has version 1 and zero views, and carries the given title, body, category and author. |
| Models.NewSolution | BaseDeConnaissance/baseconnaissance/models.py:43 | A proposed solution starts at the default status, pending, with the given article, text and author. |
| Models.NewNote | BaseDeConnaissance/baseconnaissance/models.py:98 | A new admin note is unseen and goes to the given user with the given text. |
| Models.RatingChoices | BaseDeConnaissance/baseconnaissance/models.py:80 | The feedback ratings are exactly 1 to 5, five choices. |
| Models.CommentLabel | BaseDeConnaissance/baseconnaissance/models.py:64-65 | The label is the fixed prefix and title, then the author's username, or 'Anonyme' when there is no author. |
| Models.SearchLabel | BaseDeConnaissance/baseconnaissance/models.py:74-75 | The label starts with "Recherche: ", the term and " (", and ends with " résultats)", with something in between. |
| Models.SearchLabelCount | BaseDeConnaissance/baseconnaissance/models.py:74-75 | In "Recherche: {terme} ({n} résultats)", the characters between the fixed parts are digits that read back as the logged count. |
| Models.SearchLabelInjective | BaseDeConnaissance/baseconnaissance/models.py:74-75 | Two labels of the same term are equal only when their counts are equal. |
| Models.SolutionLabel | BaseDeConnaissance/baseconnaissance/models.py:46-47 | The label is "Solution pour ", the title and " (", then the stored status code, which reads back as the solution's status, then ")". |
| Models.NoteLabel | BaseDeConnaissance/baseconnaissance/models.py:104-105 | The label is "Note admin pour ", the recipient's username and " - ", followed by exactly "vue" for a seen note and "non vue" for an unseen one. |
| Models.NoteLabelSeen | BaseDeConnaissance/baseconnaissance/models.py:104-105 | The label ends in "non vue" exactly when the note is unseen. |
| Models.FeedbackLabel | BaseDeConnaissance/baseconnaissance/models.py:84-85 | The label is "Feedback ", the rating rendered as an integer, then "/5 sur " and the title. |
| Models.ProfileLabel | BaseDeConnaissance/baseconnaissance/models.py:91-92 | The label is "Profil de " followed by exactly the owner's username. |
| Roles.InGroup | BaseDeConnaissance/baseconnaissance/views.py:14 | `groups.filter(name=...).exists()` holds exactly when some group of the user has that name. |
| Roles.IsAdmin | BaseDeConnaissance/baseconnaissance/views.py:13-14 | `is_admin` holds exactly when the user is a superuser or belongs to the group "Administrateurs". |
| Roles.IsRedacteur | BaseDeConnaissance/baseconnaissance/views.py:16-17 | `is_redacteur` holds exactly when the user belongs to the group "Rédacteurs", whatever the superuser flag. |
| Roles.RolesByGroup | BaseDeConnaissance/baseconnaissance/views.py:13-17 | `is_admin` holds iff the user is a superuser or in "Administrateurs". `is_redacteur` holds iff the user is in "Rédacteurs", whatever the superuser flag. A superuser outside "Rédacteurs" is an administrator but no redactor. |
| Selection.Where | BaseDeConnaissance/baseconnaissance/views.py:24 | A filter keeps exactly the rows satisfying the condition, in ascending key order. |
| Selection.WhereInclusionExclusion | BaseDeConnaissance/baseconnaissance/views.py:219-241 | The rows matching either of two conditions, plus those matching both, number the rows matching the first plus those matching the second. |
| Selection.Newest | BaseDeConnaissance/baseconnaissance/views.py:43 | `order_by('-date_creation')[:n]` lists at most n matching rows, newest first. A matching row is left out only when the list is full and every listed row is newer. |
| Search.Results | BaseDeConnaissance/baseconnaissance/views.py:235-241 | An article is a result iff it is published and the query occurs in its title or body, ignoring case. Each result appears once, in ascending key order. |
| Search.ResultsIgnoreUnpublished | BaseDeConnaissance/baseconnaissance/views.py:235-241 | Replacing an unpublished article by another unpublished one changes neither the results nor the logged count: drafts, pending and archived articles are invisible to search. |
| Search.LoggedCount | BaseDeConnaissance/baseconnaissance/views.py:219-225 | The logged count is never below the number of results, and equals it iff no published article matches the query in both title and body. |
| Search.OvercountWitness | BaseDeConnaissance/baseconnaissance/views.py:219-225 | A published article matching in both fields is logged as 2 results while 1 is returned. |
| Views.ProfileCount | BaseDeConnaissance/baseconnaissance/models.py:87-88 | The number of profile rows whose user is u. |
| Views.DistinctProfilesAtMostOne | BaseDeConnaissance/baseconnaissance/models.py:88 | Under the one-to-one link, a user owns at most one profile. |
| Views.FindProfile | BaseDeConnaissance/BaseDeConnaissance/views.py:16 | `user.profile` is found exactly when the user has a profile row, and names one of theirs. |
| Views.UnseenCount | BaseDeConnaissance/BaseDeConnaissance/views.py:15 | The count is the number of the user's notes that are not seen. |
| Views.MarkSeen | BaseDeConnaissance/BaseDeConnaissance/views.py:85 | The bulk update keeps every note's recipient and text, and unmarks nothing. |
| Views.MarkSeenClears | BaseDeConnaissance/BaseDeConnaissance/views.py:85 | Afterwards the viewer has no unseen note, and every note of theirs is seen. |
| Views.MarkSeenFrame | BaseDeConnaissance/BaseDeConnaissance/views.py:85 | Any other user's unseen count is unchanged. |
| Views.MarkSeenIdempotent | BaseDeConnaissance/BaseDeConnaissance/views.py:85 | Running the update a second time changes nothing. |
| Views.RecentNotes | BaseDeConnaissance/BaseDeConnaissance/views.py:86 | The viewer's 10 newest notes: at most 10, newest first, all addressed to the viewer. A note of theirs is missing only when 10 are listed and every listed note is newer. |
| Views.RecentSentNotes | BaseDeConnaissance/BaseDeConnaissance/views.py:81 | The 10 newest notes of any recipient, newest first. A note is missing only when 10 are listed and every listed note is newer. |
| Views.Home | BaseDeConnaissance/BaseDeConnaissance/views.py:10-26 | At most 4 published articles, newest first; a published article is missing only when 4 newer ones are listed. The unseen count is 0 for an anonymous visitor, otherwise the viewer's unseen notes. An avatar is shown only for a signed-in viewer whose profile holds a non-empty one, and, when no user owns two profiles, such a viewer's avatar is always shown. |
| Views.ArticleDetail | BaseDeConnaissance/baseconnaissance/views.py:175-183 | The page exists iff the article exists and is published. It lists exactly the article's validated solutions, each once in ascending key order, and exactly its comments, newest first. |
| Views.StatusCountsTotal | BaseDeConnaissance/baseconnaissance/views.py:70-72 | The per-status counts of any set of articles add up to its size. |
| Views.CategoryCounts | BaseDeConnaissance/baseconnaissance/views.py:46-48 | One count per category; each category's `nb_articles` is the number of articles filed under it. |
| Views.CategoryCountsTotal | BaseDeConnaissance/baseconnaissance/views.py:46-48 | When every article names an existing category, the per-category counts add up to the number of articles. |
| Views.AdminStats | BaseDeConnaissance/baseconnaissance/views.py:21-63 | The totals are the table sizes. The published and pending counts are the numbers of such articles, and together never exceed the total. The recent list is the 5 newest articles, or all of them: an article is missing only when every listed one is newer. The zero-result list is the newest 10 searches that found nothing: such a search is missing only when 10 newer ones are listed. The per-category list is `CategoryCounts`. |
| Views.NewestFull | BaseDeConnaissance/baseconnaissance/views.py:43 | An unfiltered `[:n]` slice is as long as it can be. |
| Views.MyArticles | BaseDeConnaissance/baseconnaissance/views.py:118-120 | Exactly the viewer's articles, newest first. |
| Views.RedacteurStats | BaseDeConnaissance/baseconnaissance/views.py:67-89 | The list is the viewer's articles. The published, pending and draft counts are the numbers of their articles in each status, and sum to at most the list's length. The recent list is its first five. |
| Store.ArticleDecision | BaseDeConnaissance/baseconnaissance/views.py:161-165 | `valider` publishes, `refuser` returns the article to draft, and any other action decides nothing. |
| Store.SolutionDecision | BaseDeConnaissance/baseconnaissance/views.py:168-171 | `valider_solution` validates, `refuser_solution` refuses, and a solution action is never an article action. |
| Store.UpdateInfo | BaseDeConnaissance/BaseDeConnaissance/views.py:57-65 | A field absent from the form keeps its value, and a present one replaces it. The username changes only to a non-empty submitted value. The superuser flag and the groups are untouched. |
| Store.SetAvatar | BaseDeConnaissance/BaseDeConnaissance/views.py:52-56 | Only the viewer's profile receives the file. No other profile changes, and no profile row is added or removed. |
| Store.KnowledgeBase.AddCategory | BaseDeConnaissance/baseconnaissance/models.py:6-8 | A category, whose parent must exist, is appended and nothing else changes. |
| Store.KnowledgeBase.RegisterUser | BaseDeConnaissance/baseconnaissance/models.py:108-111 | Creating a user also creates its profile, so the new user owns exactly one profile. |
| Store.KnowledgeBase.SaveUser | BaseDeConnaissance/baseconnaissance/models.py:112-114 | After saving an existing user, that user owns exactly one profile. A profile is added only when there was none, so repeated saves add nothing. |
| Store.KnowledgeBase.CreateArticle | BaseDeConnaissance/baseconnaissance/views.py:93-114 | On a POST with non-blank title and body and an existing category, exactly one pending article is appended, authored by the actor, and the response redirects to the dashboard. Otherwise the form is shown again and the store is unchanged. |
| Store.KnowledgeBase.EditArticle | BaseDeConnaissance/baseconnaissance/views.py:124-148 | Not found unless the article exists and the actor wrote it. An accepted edit replaces title, body and category and makes the article pending, whatever its prior status; nothing else changes. A rejected edit changes nothing. |
| Store.KnowledgeBase.ModerateArticle | BaseDeConnaissance/baseconnaissance/views.py:156-173 | Any signed-in user can moderate. A missing article is not found. `valider`/`refuser` set only this article's status. A solution action changes only the named solution, if it belongs to this article, and is not found otherwise. Any other action or method changes nothing. |
| Store.KnowledgeBase.ProposeSolution | BaseDeConnaissance/baseconnaissance/views.py:186-197 | Any existing article, whatever its status, takes a non-blank solution, appended pending with the actor as author. No article changes. |
| Store.KnowledgeBase.AddComment | BaseDeConnaissance/baseconnaissance/views.py:200-210 | Not found unless the article is published. A non-blank comment is appended; a blank one adds nothing. The response redirects to the article. |
| Store.KnowledgeBase.RunSearch | BaseDeConnaissance/baseconnaissance/views.py:212-262 | An empty query logs nothing and returns nothing. Any other query appends exactly one log record, holding the query, the viewer, the address and the summed count. It returns the search results, and the logged count is at least their number. The AI answer never influences the results. |
| Store.KnowledgeBase.UploadAvatar | BaseDeConnaissance/BaseDeConnaissance/views.py:52-56 | Only the profiles table changes, as `SetAvatar` says. |
| Store.KnowledgeBase.SendNote | BaseDeConnaissance/BaseDeConnaissance/views.py:67-75 | Exactly one unseen note is added iff the target exists and the stripped text is non-empty; otherwise nothing is added. |
| Store.KnowledgeBase.ProfilePost | BaseDeConnaissance/BaseDeConnaissance/views.py:50-75 | At most one POST branch runs, in the order avatar, account details, note. Saving the account details leaves the user with exactly one profile, appending an empty one only when there was none. A note is sent only when the actor was an administrator before the request, as `profile_view` computes it once at its start. |
| Store.KnowledgeBase.ProfileView | BaseDeConnaissance/BaseDeConnaissance/views.py:47-92 | The POST branches act as in `ProfilePost`. For an administrator, the notes only gain the sent note, so no seen flag changes, and the page lists the newest sent notes and the users. For anyone else, every own note becomes seen, leaving zero unseen, and other users' unseen counts are unchanged. That page lists their newest ten notes. |

## Left out

- The generative-AI answer in `search_view` (baseconnaissance/views.py:243-256) and the `recherche_ai` view are calls to an external service. The answer is an opaque optional string passed into `RunSearch`.
- `logout_view`, sessions, templates and the redirects' URLs are left out. A response is a `Page` value.
- File uploads: an avatar is its file name, and `fichier_pdf` is not modelled. The exception handling around `avatar.url` is not modelled.
- Clock and dates: creation order is table position. The admin dashboard's seven-day window on zero-result searches is not modelled.
- Views.AdminStats: does not model the seven-day window; it lists the newest zero-result searches of all time. It does not model the view-count ranking (`-vues`) or the floating-point average rating and its rounding. Its per-category counts are in category order, not sorted by count.
- Views.RedacteurStats: does not model the redactor's most-viewed list, which is ordered by `vues`, a column no handler updates.
- Store.KnowledgeBase.ProfileView: lists the users in key order, not sorted by username.
- `articles_a_valider` is not modelled. It is a listing of every article with no logic of its own.
- A non-numeric id in a URL or form raises a server error in Django; ids here are natural numbers, so that path is not modelled.
- Username uniqueness is not modelled: `UpdateInfo` may produce a duplicate username, which the database would reject.
- `ArticleVue` and `Feedback` rows are not modelled, because no handler writes them. The `Feedback` `__str__` format and the rating choices are modelled; the `ArticleVue` `__str__` (models.py:55-56) is not, because it renders a timestamp and dates are not modelled.
- Deletion and `on_delete` cascades are not modelled, because no handler deletes.
- Category parent cycles are not checked, as in the schema.
- URL tables, admin registration and the embedding helper are not part of this model.
- Search.Results: the result queryset has no `order_by`, so the database may return it in any order; the model fixes ascending key order. The same holds for the validated solutions listed by `Views.ArticleDetail` (views.py:177).
- Database concurrency and transactions are not modelled: handlers run one at a time.
