/**
  The decisions taken by the request handlers of `projects/views.py`: which
  projects the list page shows, which projects the detail page offers as
  similar, whether it offers the rating form, who may cancel or edit a
  project, and which picture records a new project gets.

  Persistence is an in-memory `ProjectStore` holding the project and picture
  rows; a query set is the sequence of rows in the order the store holds them.
 */
module Views {
  import opened Seqs
  import opened Text
  import opened Models

  // ---------------------------------------------------------------------
  // ProjectListView.get_queryset

  /** Not cancelled and the end strictly after `now`. */
  predicate IsOpen(p: Project, now: Instant) {
    !p.isCancelled && p.endTime > now
  }

  /** The category filter, applied only when a category is requested. */
  predicate InCategory(p: Project, category: Option<CategoryId>) {
    category.None? || p.category == category
  }

  /** The title or the name of some tag contains the term, ignoring case. */
  predicate MatchesSearch(p: Project, term: string) {
    || ContainsIgnoreCase(p.title, term)
    || exists t :: t in p.tags && ContainsIgnoreCase(t.name, term)
  }

  /**
    The rows of the join of `p` with `tags` (one row per tag) that satisfy the
    search condition; each such row is `p` again.
   */
  function SearchRows(p: Project, tags: seq<Tag>, term: string): (rows: seq<Project>)
    ensures forall x :: x in rows ==> x == p
    ensures p in rows <==>
              exists t :: t in tags && (ContainsIgnoreCase(p.title, term) || ContainsIgnoreCase(t.name, term))
  {
    if tags == [] then []
    else
      var row := if ContainsIgnoreCase(p.title, term) || ContainsIgnoreCase(tags[0].name, term) then [p] else [];
      var rest := SearchRows(p, tags[1..], term);
      assert forall t :: t in tags[1..] ==> t in tags;
      assert forall t :: t in tags ==> t == tags[0] || t in tags[1..];
      row + rest
  }

  /**
    The rows the outer join of `p` with its tags contributes: a project
    without tags yields one row (with no tag), which only the title can match.
   */
  function JoinRows(p: Project, term: string): (rows: seq<Project>)
    ensures forall x :: x in rows <==> x == p && MatchesSearch(p, term)
  {
    if p.tags == [] then (if ContainsIgnoreCase(p.title, term) then [p] else [])
    else SearchRows(p, p.tags, term)
  }

  /**
    `filter(Q(title__icontains=term) | Q(tags__name__icontains=term))`: a
    project appears once per matching joined row, so possibly several times.
   */
  function SearchJoin(ps: seq<Project>, term: string): (rows: seq<Project>)
    ensures forall x :: x in rows <==> x in ps && MatchesSearch(x, term)
  {
    if ps == [] then []
    else
      assert forall x :: x in ps ==> x == ps[0] || x in ps[1..];
      JoinRows(ps[0], term) + SearchJoin(ps[1..], term)
  }

  /**
    The project list: open projects, restricted to the requested category and,
    with a search term, to the matching projects made distinct.
   */
  function ProjectList(all: seq<Project>, now: Instant, category: Option<CategoryId>, search: Option<string>)
    : (listed: seq<Project>)
    ensures forall p :: p in listed <==>
              && p in all
              && IsOpen(p, now)
              && InCategory(p, category)
              && (search.Some? ==> MatchesSearch(p, search.value))
    ensures search.Some? ==> NoDuplicates(listed)
  {
    var open := Filter(all, (p: Project) => IsOpen(p, now));
    var inCategory := if category.Some? then Filter(open, (p: Project) => InCategory(p, category)) else open;
    if search.Some? then Distinct(SearchJoin(inCategory, search.value)) else inCategory
  }

  /** Listing rows that are distinct never shows a project twice. */
  lemma ProjectListHasNoDuplicates(all: seq<Project>, now: Instant, category: Option<CategoryId>, search: Option<string>)
    requires NoDuplicates(all)
    ensures NoDuplicates(ProjectList(all, now, category, search))
  {
    var open := Filter(all, (p: Project) => IsOpen(p, now));
    FilterKeepsNoDuplicates(all, p => IsOpen(p, now));
    if category.Some? {
      FilterKeepsNoDuplicates(open, p => InCategory(p, category));
    }
  }

  /** Without a search term the list is the open projects of the category, in order. */
  lemma ProjectListWithoutSearch(all: seq<Project>, now: Instant, category: Option<CategoryId>)
    ensures ProjectList(all, now, category, None) ==
              Filter(all, p => IsOpen(p, now) && InCategory(p, category))
  {
    var open := (p: Project) => IsOpen(p, now);
    var both := (p: Project) => IsOpen(p, now) && InCategory(p, category);
    if category.Some? {
      FilterFilter(all, open, p => InCategory(p, category), both);
    } else {
      FilterSameKeep(all, open, both);
    }
  }

  // ---------------------------------------------------------------------
  // ProjectDetailView.get_context_data: similar projects

  function TagIds(tags: seq<Tag>): set<TagId> {
    set t | t in tags :: t.id
  }

  /** `q` carries one of the tags of `p`. */
  predicate SharesTag(q: Project, p: Project) {
    exists t :: t in q.tags && t.id in TagIds(p.tags)
  }

  /** The rows of the join of `q` with `tags` whose tag is among `ids`. */
  function SharedTagRows(q: Project, tags: seq<Tag>, ids: set<TagId>): (rows: seq<Project>)
    ensures forall x :: x in rows ==> x == q
    ensures q in rows <==> exists t :: t in tags && t.id in ids
  {
    if tags == [] then []
    else
      assert forall t :: t in tags ==> t == tags[0] || t in tags[1..];
      (if tags[0].id in ids then [q] else []) + SharedTagRows(q, tags[1..], ids)
  }

  /** `filter(tags__in=...)`: one row per project and tag among `ids`. */
  function TagJoin(ps: seq<Project>, ids: set<TagId>): (rows: seq<Project>)
    ensures forall x :: x in rows <==> x in ps && exists t :: t in x.tags && t.id in ids
  {
    if ps == [] then []
    else
      assert forall x :: x in ps ==> x == ps[0] || x in ps[1..];
      SharedTagRows(ps[0], ps[0].tags, ids) + TagJoin(ps[1..], ids)
  }

  /**
    Projects sharing a tag with `p`, other than `p` itself, distinct, at most
    four.  Cancelled or finished projects are not excluded.
   */
  function SimilarProjects(all: seq<Project>, p: Project): (similar: seq<Project>)
    ensures |similar| <= 4
    ensures NoDuplicates(similar)
    ensures forall q :: q in similar ==> q in all && q.id != p.id && SharesTag(q, p)
    ensures |similar| < 4 ==>
              forall q :: q in all && q.id != p.id && SharesTag(q, p) ==> q in similar
  {
    var candidates := Distinct(Filter(TagJoin(all, TagIds(p.tags)), (q: Project) => q.id != p.id));
    PrefixKeepsNoDuplicates(candidates, Take(candidates, 4));
    Take(candidates, 4)
  }

  // ---------------------------------------------------------------------
  // ProjectDetailView.get_context_data: the rating form

  /** `ProjectRating.objects.filter(project=..., user=...).first()`. */
  function FirstRating(rows: seq<ProjectRating>, project: ProjectId, user: UserId): (first: Option<ProjectRating>)
    ensures first.None? <==> !HasRating(rows, project, user)
    ensures first.Some? ==> first.value in rows && first.value.project == project && first.value.user == user
  {
    if rows == [] then None
    else if rows[0].project == project && rows[0].user == user then Some(rows[0])
    else
      assert forall r :: r in rows ==> r == rows[0] || r in rows[1..];
      FirstRating(rows[1..], project, user)
  }

  /** What the detail page offers about ratings. */
  datatype RatingPanel =
    | NoRatingPanel                      // anonymous visitor
    | RatingForm                         // the visitor has not rated yet
    | UserRating(rating: ProjectRating)  // the visitor's rating

  /** The rating form for a signed-in visitor who has not rated, else their rating. */
  function RatingPanelFor(rows: seq<ProjectRating>, project: ProjectId, user: Option<UserId>)
    : (panel: RatingPanel)
    ensures user.None? ==> panel == NoRatingPanel
    ensures user.Some? ==> (panel == RatingForm <==> !HasRating(rows, project, user.value))
    ensures user.Some? && HasRating(rows, project, user.value) ==> panel.UserRating?
    ensures panel.UserRating? ==>
              user.Some? && panel.rating in rows &&
              panel.rating.project == project && panel.rating.user == user.value
  {
    if user.None? then NoRatingPanel
    else match FirstRating(rows, project, user.value)
      case None => RatingForm
      case Some(r) => UserRating(r)
  }

  /** In a valid rating table the visitor's rating is the one their row holds. */
  lemma RatingPanelShowsOwnRating(rows: seq<ProjectRating>, project: ProjectId, user: UserId, k: nat)
    requires RatingsValid(rows)
    requires k < |rows| && rows[k].project == project && rows[k].user == user
    ensures RatingPanelFor(rows, project, Some(user)) == UserRating(rows[k])
    ensures IsRatingChoice(RatingPanelFor(rows, project, Some(user)).rating.rating)
  {
  }

  // ---------------------------------------------------------------------
  // ProjectCancelView.post and ProjectUpdateView.dispatch

  /** What a request handler ends with. */
  datatype Outcome =
    | LoginRequired    // the login mixin turned the request away
    | NotFound         // no project with that key
    | NotCreator       // the requester is not the project's creator
    | NotCancellable   // progress reached 25%, or already cancelled
    | InvalidForm      // the submitted form did not validate
    | Saved            // the change was stored
    | Failed(error: Error)  // the eligibility test raised

  /** The cancel decision for a signed-in requester: creator first, then eligibility. */
  function CancelDecision(p: Project, requester: UserId): (outcome: Outcome)
    ensures requester != p.creator ==> outcome == NotCreator
    ensures outcome == Saved <==> requester == p.creator && p.CanBeCancelled() == Ok(true)
    ensures outcome.Failed? <==> requester == p.creator && p.totalTarget == 0
    ensures outcome == NotCancellable <==> requester == p.creator && p.CanBeCancelled() == Ok(false)
    ensures outcome == NotCreator || outcome == NotCancellable || outcome == Saved || outcome.Failed?
  {
    if p.creator != requester then NotCreator
    else match p.CanBeCancelled()
      case Err(e) => Failed(e)
      case Ok(eligible) => if eligible then Saved else NotCancellable
  }

  /** The project after a cancel request: only the flag may change. */
  function AfterCancel(p: Project, requester: UserId): (q: Project)
    ensures q == p || q == p.(isCancelled := true)
    ensures q.isCancelled <==> p.isCancelled || CancelDecision(p, requester) == Saved
  {
    if CancelDecision(p, requester) == Saved then p.(isCancelled := true) else p
  }

  /**
    With a positive target, a cancel request succeeds exactly when it comes
    from the creator, less than a quarter of the target is donated and the
    project is still active.
   */
  lemma CancelSucceedsExactly(p: Project, requester: UserId)
    requires 0 < p.totalTarget
    ensures CancelDecision(p, requester) == Saved <==>
              requester == p.creator && 4 * p.TotalDonations() < p.totalTarget && !p.isCancelled
  {
    CanBeCancelledExactly(p);
  }

  /**
    Cancelling is one-way: a cancelled project stays cancelled, and a second
    request is refused and changes nothing.
   */
  lemma CancelIsOneWay(p: Project, requester: UserId)
    ensures p.isCancelled ==> AfterCancel(p, requester) == p
    ensures CancelDecision(AfterCancel(p, requester), requester) != Saved
    ensures AfterCancel(AfterCancel(p, requester), requester) == AfterCancel(p, requester)
  {
  }

  /** The fields the project form edits. */
  datatype ProjectForm = ProjectForm(
    title: string,
    details: string,
    category: Option<CategoryId>,
    totalTarget: Cents,
    startTime: Instant,
    endTime: Instant,
    tags: seq<Tag>)

  /**
    The form's validation, from the model fields: a non-blank title of at
    most 200 characters, non-blank details, a category and at least one tag
    (none of these fields allows blank), and a target its validators accept.
   */
  predicate FormIsValid(f: ProjectForm) {
    && 0 < |f.title| <= 200
    && 0 < |f.details|
    && f.category.Some?
    && 0 < |f.tags|
    && ValidTarget(f.totalTarget)
  }

  function Edited(p: Project, f: ProjectForm): Project {
    p.(title := f.title, details := f.details, category := f.category, totalTarget := f.totalTarget,
       startTime := f.startTime, endTime := f.endTime, tags := f.tags)
  }

  /**
    The update request: the creator test comes before anything else (even
    before the login test), then the form is validated.
   */
  function EditDecision(p: Project, requester: Option<UserId>, f: ProjectForm): (outcome: Outcome)
    ensures outcome == Saved ==> requester == Some(p.creator) && FormIsValid(f)
    ensures requester != Some(p.creator) ==> outcome == NotCreator
    ensures requester == Some(p.creator) && !FormIsValid(f) ==> outcome == InvalidForm
    ensures requester == Some(p.creator) && FormIsValid(f) ==> outcome == Saved
  {
    if requester != Some(p.creator) then NotCreator
    else if !FormIsValid(f) then InvalidForm
    else Saved
  }

  function AfterEdit(p: Project, requester: Option<UserId>, f: ProjectForm): Project {
    if EditDecision(p, requester, f) == Saved then Edited(p, f) else p
  }

  /**
    Only the creator reaches the edit path; for everyone else the project is
    unchanged.  An edit never changes the owner, the key, the cancelled flag
    or the donations.
   */
  lemma EditGuard(p: Project, requester: Option<UserId>, f: ProjectForm)
    ensures requester != Some(p.creator) ==> AfterEdit(p, requester, f) == p
    ensures AfterEdit(p, requester, f) != p ==> requester == Some(p.creator)
    ensures var q := AfterEdit(p, requester, f);
            q.id == p.id && q.creator == p.creator && q.isCancelled == p.isCancelled &&
            q.donations == p.donations && q.createdAt == p.createdAt
  {
  }

  // ---------------------------------------------------------------------
  // ProjectCreateView.form_valid: the picture records

  /** The picture records for the uploads, in order; only the first is featured. */
  function PicturesFor(project: ProjectId, uploads: seq<Upload>): (pics: seq<ProjectPicture>)
    ensures |pics| == |uploads|
  {
    seq(|uploads|, i requires 0 <= i < |uploads| => ProjectPicture(project, uploads[i], i == 0))
  }

  function FeaturedIndices(pics: seq<ProjectPicture>): set<nat> {
    set i: nat | i < |pics| && pics[i].isFeatured
  }

  /**
    Every upload gets one record for the project, in upload order; exactly
    one record is featured when there are uploads, none otherwise.
   */
  lemma FeaturedPictureRule(project: ProjectId, uploads: seq<Upload>)
    ensures forall i :: 0 <= i < |uploads| ==>
              PicturesFor(project, uploads)[i].project == project &&
              PicturesFor(project, uploads)[i].image == uploads[i]
    ensures FeaturedIndices(PicturesFor(project, uploads)) == if uploads == [] then {} else {0}
    ensures |FeaturedIndices(PicturesFor(project, uploads))| == if uploads == [] then 0 else 1
  {
  }

  /** The upload loop: one record per upload, the first one featured. */
  method CreatePictures(project: ProjectId, uploads: seq<Upload>) returns (pics: seq<ProjectPicture>)
    ensures pics == PicturesFor(project, uploads)
  {
    pics := [];
    for i := 0 to |uploads|
      invariant pics == PicturesFor(project, uploads[..i])
    {
      pics := pics + [ProjectPicture(project, uploads[i], i == 0)];
    }
    assert uploads[..|uploads|] == uploads;
  }

  // ---------------------------------------------------------------------
  // The persisted rows and the handlers that change them

  /** `get_object_or_404`: the position of the row with key `pk`, if any. */
  function Lookup(ps: seq<Project>, pk: ProjectId): (found: Option<nat>)
    ensures found.Some? ==> found.value < |ps| && ps[found.value].id == pk
    ensures found.None? ==> forall p :: p in ps ==> p.id != pk
  {
    if ps == [] then None
    else if ps[0].id == pk then Some(0)
    else
      assert forall p :: p in ps ==> p == ps[0] || p in ps[1..];
      match Lookup(ps[1..], pk)
      case None => None
      case Some(k) => Some(k + 1)
  }

  /** The new project row a valid creation form produces. */
  function NewProject(id: ProjectId, creator: UserId, f: ProjectForm, now: Instant): Project {
    Project(id, creator, f.title, f.details, f.category, f.tags, f.totalTarget,
            f.startTime, f.endTime, now, false, false, [])
  }

  class ProjectStore {
    var projects: seq<Project>
    var pictures: seq<ProjectPicture>
    var nextId: ProjectId

    /** Keys are unique and below the next key to hand out. */
    ghost predicate Valid()
      reads this
    {
      && (forall i, j :: 0 <= i < j < |projects| ==> projects[i].id != projects[j].id)
      && (forall p :: p in projects ==> p.id < nextId)
    }

    constructor ()
      ensures Valid()
      ensures projects == [] && pictures == [] && nextId == 1
    {
      projects, pictures, nextId := [], [], 1;
    }

    /** `ProjectCancelView.post`. */
    method Cancel(pk: ProjectId, requester: Option<UserId>) returns (outcome: Outcome)
      requires Valid()
      modifies this
      ensures Valid()
      ensures pictures == old(pictures) && nextId == old(nextId)
      ensures requester.None? ==> outcome == LoginRequired && projects == old(projects)
      ensures requester.Some? && Lookup(old(projects), pk).None? ==>
                outcome == NotFound && projects == old(projects)
      ensures requester.Some? && Lookup(old(projects), pk).Some? ==>
                var i := Lookup(old(projects), pk).value;
                outcome == CancelDecision(old(projects)[i], requester.value) &&
                projects == old(projects)[i := AfterCancel(old(projects)[i], requester.value)]
    {
      if requester.None? {
        return LoginRequired;
      }
      var found := Lookup(projects, pk);
      if found.None? {
        return NotFound;
      }
      var i := found.value;
      var project := projects[i];
      if project.creator != requester.value {
        return NotCreator;
      }
      var eligible := project.CanBeCancelled();
      if eligible.Err? {
        return Failed(eligible.error);
      }
      if !eligible.value {
        return NotCancellable;
      }
      projects := projects[i := project.(isCancelled := true)];
      outcome := Saved;
    }

    /** `ProjectUpdateView`: the creator guard in `dispatch`, then the form. */
    method Edit(pk: ProjectId, requester: Option<UserId>, form: ProjectForm) returns (outcome: Outcome)
      requires Valid()
      modifies this
      ensures Valid()
      ensures pictures == old(pictures) && nextId == old(nextId)
      ensures Lookup(old(projects), pk).None? ==> outcome == NotFound && projects == old(projects)
      ensures Lookup(old(projects), pk).Some? ==>
                var i := Lookup(old(projects), pk).value;
                outcome == EditDecision(old(projects)[i], requester, form) &&
                projects == old(projects)[i := AfterEdit(old(projects)[i], requester, form)]
    {
      var found := Lookup(projects, pk);
      if found.None? {
        return NotFound;
      }
      var i := found.value;
      var project := projects[i];
      if requester != Some(project.creator) {
        return NotCreator;
      }
      if !FormIsValid(form) {
        return InvalidForm;
      }
      projects := projects[i := Edited(project, form)];
      outcome := Saved;
    }

    /** `ProjectCreateView`: store the project for its creator, then its pictures. */
    method Create(requester: Option<UserId>, form: ProjectForm, uploads: seq<Upload>, now: Instant)
      returns (outcome: Outcome, id: Option<ProjectId>)
      requires Valid()
      modifies this
      ensures Valid()
      ensures requester.None? ==> outcome == LoginRequired
      ensures requester.Some? && !FormIsValid(form) ==> outcome == InvalidForm
      ensures outcome != Saved ==>
                id.None? && projects == old(projects) && pictures == old(pictures) && nextId == old(nextId)
      ensures requester.Some? && FormIsValid(form) ==>
                && outcome == Saved
                && id == Some(old(nextId))
                && projects == old(projects) + [NewProject(old(nextId), requester.value, form, now)]
                && pictures == old(pictures) + PicturesFor(old(nextId), uploads)
                && nextId == old(nextId) + 1
    {
      if requester.None? {
        return LoginRequired, None;
      }
      if !FormIsValid(form) {
        return InvalidForm, None;
      }
      var newId := nextId;
      projects := projects + [NewProject(newId, requester.value, form, now)];
      nextId := nextId + 1;
      var records := CreatePictures(newId, uploads);
      pictures := pictures + records;
      outcome, id := Saved, Some(newId);
    }
  }
}
