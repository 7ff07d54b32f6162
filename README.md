# Crowdfunding projects: funding rules and request decisions

A Dafny model of the `projects` application of a crowdfunding site. Users
create fundraising projects that have a target and a deadline. Other users
donate to them, rate them and report them. The model covers two things:

- the funding rules on a project (`projects/models.py`): the donation total,
  the progress percentage capped at 100, the whole days left, and the rule
  that a project can be cancelled only while it is below 25% of its target;
- the decisions the request handlers take (`projects/views.py`): which
  projects the list page shows, which similar projects the detail page
  offers, whether the detail page shows the rating form, who may cancel or
  edit a project, and which picture records a new project gets.

Conventions:

- Money is integer cents. The amount fields have two decimal places, so the
  target's minimum of 1 is 100 cents and its 12 digits allow fewer than
  10^12 cents.
- Instants are integer microseconds. The current time is a parameter.
- Progress is an exact `real`. For a positive target, the 25% test is proved
  equal to the integer test `4 * total < target`.
- Projects are values (`Models.Project`), one per database row. A project's
  donation amounts are carried in the row.
- The database is the class `Views.ProjectStore`. Its fields hold the
  project rows and the picture rows. Its methods `Cancel`, `Edit` and
  `Create` change those fields the way the cancel, update and create
  handlers do.
- A query set is the sequence of rows in store order. `.filter` is
  `Seqs.Filter`. `.distinct()` is `Seqs.Distinct`, which keeps first
  occurrences. A slice `[:4]` is `Seqs.Take`.

Modules:

- `Seqs` (seqs.dfy): the query-set combinators and their lemmas.
- `Text` (text.dfy): `icontains`, modelled as ASCII lower-casing plus a
  substring test.
- `Models` (models.dfy): rows, funding rules, rating and report tables, after
  `projects/models.py`.
- `Views` (views.dfy): list, detail, cancel, update and create logic, and the
  store, after `projects/views.py`.

In these places the model follows the code as written:

- A zero target makes `progress` fail. The division raises; nothing returns
  an error value. `CanBeCancelled` computes the progress before it looks at
  the cancelled flag, so that failure reaches the cancel handler.
- A negative target is not rejected by the model layer, because validators
  run only in forms. The model keeps `totalTarget` an `int`.
- `ProjectUpdateView.dispatch` checks the creator before
  `LoginRequiredMixin` runs, so an anonymous editor gets the "can't edit"
  refusal rather than a login redirect. The cancel handler checks login
  first.
- The similar-projects query does not exclude cancelled or expired projects.
- On a second cancel request, the source shows the "reached 25% of target"
  message, even when the real reason is that the project is already
  cancelled. The state does not change either way.

Defects in the repository that the model does not reproduce:

- `projects/forms.py:8` spells `fildes` instead of `fields`.
- `projects/forms.py:2` imports models that do not exist.
- `projects/views.py:9` imports form names that `projects/forms.py` does not
  define.
- `projects/views.py:26` filters on `category__slug`, but categories have no
  slug (`projects/models.py:8-13`). The model filters on equality of an
  abstract category key.
- The project form (`Views.ProjectForm`) is modelled by what it would
  contain: the fields listed at `projects/forms.py:8`. `Views.FormIsValid`
  requires what those model fields require: a non-blank title of at most 200
  characters, non-blank details, a category, at least one tag, and a target
  its validators accept.

## Model

| member | source | states |
|---|---|---|
| `Models.Project.DaysLeft` | projects/models.py:38-40 | 0 when the end is not after now; otherwise the floor of the remaining time in whole days (days*DAY <= end-now < (days+1)*DAY), never negative |
| `Models.Project.TotalDonations` | projects/models.py:42-44 | the sum of the donation amounts: 0 with no donations, and at least every single amount |
| `Models.SumAppend` | projects/models.py:44 | the sum over two batches of donations is the sum of the two sums |
| `Models.Project.Progress` | projects/models.py:46-48 | fails exactly when the target is 0; otherwise at most 100, and at least 0 for a positive target |
| `Models.Project.CanBeCancelled` | projects/models.py:50-51 | fails exactly when the target is 0; never true for a cancelled project; true only below 25% progress |
| `Models.ValidTargetIsSafe` | projects/models.py:27-31 | a target the validators accept (at least 1.00, at most 12 digits) makes progress and eligibility succeed, with progress in 0..100 |
| `Models.ProgressIsClampedRatio` | projects/models.py:47-48 | with a positive target: at or below the target the progress is exactly total*100/target; at or above it, exactly 100 |
| `Models.QuarterThreshold` | projects/models.py:47-51 | with a positive target: progress < 25 iff 4*total < target |
| `Models.CanBeCancelledExactly` | projects/models.py:50-51 | with a positive target: cancellable iff 4*total < target and not already cancelled |
| `Models.NoDonations` | projects/models.py:43-51 | no donations: total 0, progress 0, cancellable iff not cancelled |
| `Models.DonationOnlyRaisesProgress` | projects/models.py:43-51 | one more donation never lowers the progress and never makes a non-cancellable project cancellable |
| `Models.QuarterFundedScenario` | projects/models.py:47-51 | target 1000.00 with donations 100.00 and 150.00: progress exactly 25, not cancellable |
| `Models.TenthFundedScenario` | projects/models.py:47-51 | target 1000.00 with a donation of 100.00: progress 10, cancellable unless already cancelled |
| `Models.AddRating` | projects/models.py:74-81 | an insert succeeds iff the value is one of 1..5 and the (project, user) pair has no rating yet; a bad value is refused first, then a duplicate pair; success appends exactly the new row |
| `Models.AddRatingKeepsValid` | projects/models.py:77-81 | a successful insert keeps the rating table free of duplicate pairs and every value in 1..5 |
| `Models.AddReport` | projects/models.py:86-94 | an insert succeeds iff the (project, user) pair has no report yet; success appends exactly the new unresolved row |
| `Models.AddReportKeepsValid` | projects/models.py:93-94 | a successful insert keeps the report table free of duplicate pairs |
| `Seqs.Filter` | projects/views.py:18-20 | keeps exactly the rows that pass the test, never more rows than given |
| `Seqs.FilterKeepsNoDuplicates` | projects/views.py:18-26 | filtering rows without duplicates yields rows without duplicates |
| `Seqs.FilterFilter` | projects/views.py:18-26 | two successive filters equal one filter on the conjunction |
| `Seqs.Distinct` | projects/views.py:33 | same rows as the input, each exactly once |
| `Seqs.DistinctOfDistinct` | projects/views.py:33 | on rows without duplicates, distinct changes nothing |
| `Seqs.Take` | projects/views.py:75 | a prefix of length min(n, length) |
| `Seqs.PrefixKeepsNoDuplicates` | projects/views.py:75 | a prefix of rows without duplicates has none |
| `Text.EmptyTermMatches` | projects/views.py:31-32 | an empty search term matches every text |
| `Text.TextMatchesItself` | projects/views.py:31-32 | every text contains itself, ignoring case |
| `Text.TermCaseIrrelevant` | projects/views.py:31-32 | the case of the search term does not change whether a text matches |
| `Text.TextCaseIrrelevant` | projects/views.py:31-32 | the case of the searched text does not change whether it matches |
| `Views.SearchRows` | projects/views.py:30-32 | the per-tag joined rows of a project that satisfy the search: present iff the project has at least one tag and the title or some tag name matches (the untagged case is `Views.JoinRows`) |
| `Views.JoinRows` | projects/views.py:30-32 | a project has a matching joined row iff its title or one of its tag names contains the term; with no tags, only the title counts |
| `Views.SearchJoin` | projects/views.py:28-32 | a project appears among the matching joined rows iff it is given and matches the search |
| `Views.ProjectList` | projects/views.py:17-35 | a project is listed iff it is stored, not cancelled, ends strictly after now, is in the requested category (if any) and matches the search term (if any); with a term the list has no duplicates |
| `Views.ProjectListHasNoDuplicates` | projects/views.py:17-35 | distinct stored rows give a list without duplicates, with or without a search |
| `Views.ProjectListWithoutSearch` | projects/views.py:18-26 | without a search term the list is the stored rows, in order, that are open and in the category |
| `Views.SharedTagRows` | projects/views.py:71-72 | a project has a joined row iff one of its tags is among the given tag keys |
| `Views.TagJoin` | projects/views.py:71-72 | a project appears among the joined rows iff it is given and carries one of the given tags |
| `Views.SimilarProjects` | projects/views.py:71-75 | at most 4 projects, no duplicates, each stored, not the project itself and sharing a tag with it; fewer than 4 only when every such project is included |
| `Views.FirstRating` | projects/views.py:56-59 | none iff the user has not rated the project; otherwise a stored rating of that user for that project |
| `Views.RatingPanelFor` | projects/views.py:54-63 | nothing for an anonymous visitor; the rating form iff a signed-in visitor has not rated; a visitor who has rated always gets a rating of theirs for this project |
| `Views.RatingPanelShowsOwnRating` | projects/views.py:56-63 | with a valid rating table, the panel shows exactly the visitor's one rating row, whose value is in 1..5 |
| `Views.CancelDecision` | projects/views.py:123-132 | a non-creator is refused before eligibility is looked at; the cancel is saved iff the creator asks and the project can be cancelled; the creator of a project that cannot be cancelled (25% reached, or already cancelled) gets the "reached 25% of target" refusal; a zero target fails only for the creator |
| `Views.AfterCancel` | projects/views.py:131-132 | the project is unchanged or differs only in its cancelled flag, which is set iff it was set or the cancel was saved |
| `Views.CancelSucceedsExactly` | projects/views.py:123-132 | with a positive target, a cancel is saved iff the creator asks, 4*total < target and the project is not cancelled |
| `Views.CancelIsOneWay` | projects/views.py:127-132 | a cancelled project is left alone; a second cancel is never saved and changes nothing |
| `Views.EditDecision` | projects/views.py:109-114 | anyone but the creator (anonymous included) is refused; the creator's edit is saved iff the form is valid, and refused as invalid otherwise |
| `Views.EditGuard` | projects/views.py:109-114 | a non-creator leaves the project unchanged; no edit changes the key, creator, cancelled flag, creation time or donations |
| `Views.PicturesFor` | projects/views.py:90-96 | one picture record per upload |
| `Views.FeaturedPictureRule` | projects/views.py:90-96 | record i belongs to the project and holds upload i; the featured records are {0} when there are uploads and none otherwise |
| `Views.CreatePictures` | projects/views.py:91-96 | the upload loop builds exactly the specified records, in upload order |
| `Views.Lookup` | projects/views.py:121 | a found position holds a row with the key; not found means no row has the key |
| `Views.ProjectStore.Cancel` | projects/views.py:119-134 | login required first, then not found, then the cancel decision; only a saved decision sets the flag of that one row, and the store stays keyed uniquely |
| `Views.ProjectStore.Edit` | projects/views.py:104-114 | not found, else the edit decision; only a saved decision replaces the edited fields of that one row |
| `Views.ProjectStore.Create` | projects/views.py:85-99 | login and form validity first; then one new row owned by the requester with a fresh key, not cancelled, plus its picture records appended in order |

## Left out

- Framework plumbing is not modelled: `messages`, `redirect`, `reverse_lazy`,
  templates, `save()`, pagination (`paginate_by = 10`) and URL routing. Each
  handler's result is an `Outcome` value instead.
- The average rating annotations (`Avg`) are left out. They are
  floating-point database aggregates.
- The detail page's comment form and the list page's category list are left
  out. Both are context entries with no decision in them.
- The donation model is not part of this model. Donation amounts are taken to
  be non-negative cents.
- Image storage and `request.FILES` are not modelled. An upload is an opaque
  name.
- The wall clock is left out. `days_left` reads `timezone.now()` twice; the
  model uses one `now` for both reads. In the source the deadline can pass
  between the test at `projects/models.py:40` and the subtraction, and then
  `days_left` returns -1. `Models.Project.DaysLeft` is never negative, because
  it reads the clock once.
- The database's row order is unspecified in the source. The model uses
  store order for it, which decides which four similar projects are kept.
- `icontains` depends on the database collation. It is modelled as ASCII
  lower-casing.
- Comment, rating and report handlers do not exist in the source: they are
  commented out in `projects/urls.py`. Only the table rules for ratings and
  reports are modelled.
- Requests are modelled as serialized: each handler is one atomic step on
  the store. The source reads the progress (`projects/views.py:127`) and
  later saves the whole loaded row (`projects/views.py:132`). Under
  concurrent requests, a cancel could act on a stale donation total or
  overwrite a concurrent edit. The "only the flag changes" property of
  `Views.AfterCancel` and `Views.ProjectStore.Cancel` holds only for requests
  handled one at a time.
- `Views.FormIsValid`: form fields strip surrounding whitespace before these
  checks; the model does not strip. The start and end times are always
  present in the model, so their "required" check is not modelled. This
  applies to `Views.EditDecision`, `Views.ProjectStore.Edit` and
  `Views.ProjectStore.Create`.
- `projects/forms.py`, `projects/admin.py` and `projects/urls.py` hold no
  logic, so they are not modelled.
- `Models.Project.Progress`: computed exactly. The source uses Python
  `Decimal`, which rounds a quotient to 28 significant digits. For targets
  below 10^12 cents, a quotient that is not exactly 0.25 differs from it by
  more than 10^-13, so the rounding cannot change the 25% test. This bound
  is not proved in Dafny.
