/**
 Runs of the reconciler interleaved with everything that others may do to the server: no book is searched twice.
 */
module ReconcilerRuns {
  import opened Text
  import opened SeriesNames
  import opened Reconciler

  ghost predicate NoDuplicates(ids: seq<int>) {
    forall i, j | 0 <= i < j < |ids| :: ids[i] != ids[j]
  }

  ghost predicate Distinct(s: State) {
    && (forall i, j | 0 <= i < j < |s.books| :: s.books[i].id != s.books[j].id)
    && forall i, j | 0 <= i < j < |s.authors| :: s.authors[i].id != s.authors[j].id
  }

  // ---- What a run searches ----

  lemma {:induction false} NewAmongExact(s: State, a: Author, books: seq<Book>, id: int)
    ensures id in NewAmong(s, a, books) <==> exists b :: b in books && b.id == id && IsNew(s, a, b)
  {
    hide IsNew;
    if books != [] {
      var init, last := books[..|books| - 1], books[|books| - 1];
      NewAmongExact(s, a, init, id);
      assert books == init + [last];
    }
  }

  lemma {:induction false} ToSearchExact(s: State, authors: seq<Author>, id: int)
    ensures id in ToSearch(s, authors) <==> exists a, b :: a in authors && b in s.books && b.id == id && IsNew(s, a, b)
  {
    hide IsNew, NewAmong;
    if authors != [] {
      var init, last := authors[..|authors| - 1], authors[|authors| - 1];
      ToSearchExact(s, init, id);
      NewAmongExact(s, last, s.books, id);
      assert authors == init + [last];
    }
  }

  /** One of the first fifty records is a grab or an import. */
  predicate FirstPageShowsGrab(h: seq<string>) {
    exists i | 0 <= i < 50 && i < |h| :: h[i] == "grabbed" || h[i] == "bookFileImported" || h[i] == "downloadImported"
  }

  lemma {:induction false} HandledMeans(s: State, id: int)
    ensures WasHandled(s, id) <==> FirstPageShowsGrab(HistoryOf(s, id))
  {
    var h := HistoryOf(s, id);
    if FirstPageShowsGrab(h) {
      var i :| 0 <= i < 50 && i < |h| && (h[i] == "grabbed" || h[i] == "bookFileImported" || h[i] == "downloadImported");
      assert IsHandling(Page(h)[i]);
    }
  }

  /** A tag of the author is the slug of the name. */
  predicate Tagged(s: State, a: Author, name: string) {
    exists t :: t in a.tags && t in s.tags && s.tags[t] == Slug(name)
  }

  /** An unmonitored book without file, of a series that the author is tagged with, and without a recent grab or import. */
  predicate AwaitsSearch(s: State, a: Author, b: Book) {
    && b.authorId == a.id && !b.monitored && b.fileCount == 0
    && SeriesName(b.seriesTitle) != "" && Tagged(s, a, SeriesName(b.seriesTitle))
    && !FirstPageShowsGrab(HistoryOf(s, b.id))
  }

  lemma {:induction false} NewAwaits(s: State, a: Author, b: Book)
    ensures IsNew(s, a, b) <==> AwaitsSearch(s, a, b)
  {
    hide SeriesName, Slug, WasHandled, FirstPageShowsGrab;
    HandledMeans(s, b.id);
  }

  /** What a run searches. */
  lemma {:induction false} SearchedIff(s: State, id: int)
    ensures id in ToSearch(s, s.authors) <==> exists a, b :: a in s.authors && b in s.books && b.id == id && AwaitsSearch(s, a, b)
  {
    hide IsNew, AwaitsSearch;
    ToSearchExact(s, s.authors, id);
    forall a: Author, b: Book
      ensures IsNew(s, a, b) <==> AwaitsSearch(s, a, b)
    {
      NewAwaits(s, a, b);
    }
  }

  /**
   What else a run changes: authors with a known tag become monitored, without new items being monitored, if they were
   not; searched books become monitored. Everything else stays.
   */
  lemma {:induction false} ChangedByRun(s: State)
    ensures var s' := Reconciled(s, false);
            && |s'.authors| == |s.authors| && |s'.books| == |s.books| && s'.tags == s.tags && s'.history == s.history
            && s'.searches == s.searches + ToSearch(s, s.authors)
            && (forall i | 0 <= i < |s.authors| ::
                  s'.authors[i] == if !s.authors[i].monitored && (exists t :: t in s.authors[i].tags && t in s.tags)
                                   then Author(s.authors[i].id, s.authors[i].tags, true, "none") else s.authors[i])
            && (forall i | 0 <= i < |s.books| ::
                  s'.books[i] == if s.books[i].id in ToSearch(s, s.authors)
                                 then Book(s.books[i].id, s.books[i].authorId, s.books[i].seriesTitle, true, s.books[i].fileCount)
                                 else s.books[i])
    ensures Reconciled(s, true) == s
  {
    hide ToSearch, AuthorWrites, Wanted;
    forall i | 0 <= i < |s.authors|
      ensures Wanted(s, s.authors[i]) != {} <==> exists t :: t in s.authors[i].tags && t in s.tags
    {
      WantedMeans(s, s.authors[i]);
    }
  }

  lemma {:induction false} WantedMeans(s: State, a: Author)
    ensures Wanted(s, a) != {} <==> exists t :: t in a.tags && t in s.tags
  {
    if t :| t in a.tags && t in s.tags {
      assert s.tags[t] in Wanted(s, a);
    }
  }

  lemma {:induction false} NewAmongDistinct(s: State, a: Author, books: seq<Book>)
    requires forall i, j | 0 <= i < j < |books| :: books[i].id != books[j].id
    ensures NoDuplicates(NewAmong(s, a, books))
  {
    if books != [] {
      var init, last := books[..|books| - 1], books[|books| - 1];
      NewAmongDistinct(s, a, init);
      NewAmongExact(s, a, init, last.id);
    }
  }

  lemma {:induction false} ToSearchDistinct(s: State, authors: seq<Author>)
    requires forall i, j | 0 <= i < j < |s.books| :: s.books[i].id != s.books[j].id
    requires forall i, j | 0 <= i < j < |authors| :: authors[i].id != authors[j].id
    ensures NoDuplicates(ToSearch(s, authors))
  {
    if authors != [] {
      var init, last := authors[..|authors| - 1], authors[|authors| - 1];
      ToSearchDistinct(s, init);
      NewAmongDistinct(s, last, s.books);
      forall id | id in NewAmong(s, last, s.books)
        ensures id !in ToSearch(s, init)
      {
        ToSearchExact(s, init, id);
        NewAmongExact(s, last, s.books, id);
        OneAuthorEach(s, init, last, id);
      }
      Overlap(ToSearch(s, init), NewAmong(s, last, s.books));
    }
  }

  lemma {:induction false} OneAuthorEach(s: State, init: seq<Author>, last: Author, id: int)
    requires forall i, j | 0 <= i < j < |s.books| :: s.books[i].id != s.books[j].id
    requires forall a | a in init :: a.id != last.id
    ensures (exists a, b :: a in init && b in s.books && b.id == id && IsNew(s, a, b)) ==>
              !exists b :: b in s.books && b.id == id && IsNew(s, last, b)
  {
  }

  // ---- A second run does nothing ----

  lemma {:induction false} NoAuthorWrites(s: State, authors: seq<Author>)
    requires forall a | a in authors :: !NeedsMonitoring(s, a)
    ensures AuthorWrites(s, authors) == 0
  {
    if authors != [] {
      assert authors[|authors| - 1] in authors;
      NoAuthorWrites(s, authors[..|authors| - 1]);
    }
  }

  lemma {:induction false} NoneNew(s: State, a: Author, books: seq<Book>)
    requires forall b | b in books :: !IsNew(s, a, b)
    ensures NewAmong(s, a, books) == []
  {
    if books != [] {
      assert books[|books| - 1] in books;
      NoneNew(s, a, books[..|books| - 1]);
    }
  }

  lemma {:induction false} NoneToSearch(s: State, authors: seq<Author>)
    requires forall a, b | a in authors && b in s.books :: !IsNew(s, a, b)
    ensures ToSearch(s, authors) == []
  {
    if authors != [] {
      assert authors[|authors| - 1] in authors;
      NoneNew(s, authors[|authors| - 1], s.books);
      NoneToSearch(s, authors[..|authors| - 1]);
    }
  }

  lemma {:induction false} NothingNewAfterRun(s: State)
    ensures var s' := Reconciled(s, false); ToSearch(s', s'.authors) == []
  {
    var s' := Reconciled(s, false);
    forall a', b' | a' in s'.authors && b' in s'.books
      ensures !IsNew(s', a', b')
    {
      var i :| 0 <= i < |s.authors| && s'.authors[i] == a';
      var j :| 0 <= j < |s.books| && s'.books[j] == b';
      assert s.authors[i] in s.authors && s.books[j] in s.books;
      NotNewAgain(s, s.authors[i], s.books[j], a', b');
    }
    NoneToSearch(s', s'.authors);
  }

  lemma {:induction false} NotNewAgain(s: State, a: Author, b: Book, a': Author, b': Book)
    requires a in s.authors && b in s.books && a' == Adjusted(s, a)
    requires b' == if b.id in ToSearch(s, s.authors) then b.(monitored := true) else b
    ensures !IsNew(Reconciled(s, false), a', b')
  {
    var s' := Reconciled(s, false);
    ToSearchExact(s, s.authors, b.id);
    assert Wanted(s', a') == Wanted(s, a);
    assert IsNew(s', a', b') ==> IsNew(s, a, b);
  }

  /** With no change in between, a second run searches nothing and writes nothing. */
  lemma {:induction false} SecondRunDoesNothing(s: State)
    ensures var s' := Reconciled(s, false);
            ToSearch(s', s'.authors) == [] && Reconciled(s', false) == s'
  {
    var s' := Reconciled(s, false);
    NothingNewAfterRun(s);
    forall a' | a' in s'.authors
      ensures !NeedsMonitoring(s', a')
    {
      var i :| 0 <= i < |s.authors| && s'.authors[i] == a';
      assert Wanted(s', a') == Wanted(s, s.authors[i]);
    }
    NoAuthorWrites(s', s'.authors);
    assert AdjustedAuthors(s', |s'.authors|) == s'.authors;
    assert Monitor(s'.books, []) == s'.books;
    assert s'.searches + [] == s'.searches;
  }

  // ---- What others do ----

  datatype Event =
    | AddAuthor(a: Author)
    | AddBook(b: Book)
    | Record(id: int, eventType: string)
    | SetFiles(id: int, count: nat)
    | SetMonitored(id: int, monitored: bool)
    | Retitle(id: int, seriesTitle: string)
    | Retag(authorId: int, authorTags: seq<int>)
    | SetAuthor(authorId: int, authorMonitored: bool)
    | LabelTag(tagId: int, tagLabel: string)

  function Changed(b: Book, e: Event): Book {
    match e
    case SetFiles(id, n) => if b.id == id then b.(fileCount := n) else b
    case SetMonitored(id, m) => if b.id == id then b.(monitored := m) else b
    case Retitle(id, t) => if b.id == id then b.(seriesTitle := t) else b
    case _ => b
  }

  function ChangedAuthor(a: Author, e: Event): Author {
    match e
    case Retag(id, tags) => if a.id == id then a.(tags := tags) else a
    case SetAuthor(id, m) => if a.id == id then a.(monitored := m) else a
    case _ => a
  }

  function Applied(s: State, e: Event): State {
    match e
    case AddAuthor(a) => s.(authors := s.authors + [a])
    case AddBook(b) => s.(books := s.books + [b])
    case Record(id, t) => s.(history := s.history[id := [t] + HistoryOf(s, id)])
    case LabelTag(t, text) => s.(tags := s.tags[t := text])
    case _ =>
      s.(books := seq(|s.books|, i requires 0 <= i < |s.books| => Changed(s.books[i], e)),
         authors := seq(|s.authors|, i requires 0 <= i < |s.authors| => ChangedAuthor(s.authors[i], e)))
  }

  predicate HasFreshId(s: State, e: Event) {
    match e
    case AddAuthor(a) => forall x | x in s.authors :: x.id != a.id
    case AddBook(b) => forall x | x in s.books :: x.id != b.id
    case _ => true
  }

  /**
   New ids are fresh. A book is unmonitored only after a grab or import that the first page of its history
   still shows, and while it stays unmonitored that page keeps showing one. Everything else is unrestricted.
   */
  predicate Allowed(s: State, e: Event) {
    match e
    case AddAuthor(_) => HasFreshId(s, e)
    case AddBook(_) => HasFreshId(s, e)
    case SetMonitored(id, m) => m || WasHandled(s, id)
    case Record(id, t) =>
      WasHandled(s, id) && (exists b | b in s.books :: b.id == id && !b.monitored) ==> WasHandled(Applied(s, e), id)
    case _ => true
  }

  datatype Action = Reconcile(dry: bool) | Outside(e: Event)

  function Executed(s: State, actions: seq<Action>): State {
    if actions == [] then s
    else
      var before := Executed(s, actions[..|actions| - 1]);
      match actions[|actions| - 1]
      case Reconcile(dry) => Reconciled(before, dry)
      case Outside(e) => Applied(before, e)
  }

  predicate AllAllowed(s: State, actions: seq<Action>) {
    forall k | 0 <= k < |actions| && actions[k].Outside? :: Allowed(Executed(s, actions[..k]), actions[k].e)
  }

  /** Books searched before are known, and each of them is still monitored or visibly handled. */
  ghost predicate Settled(s: State) {
    && Distinct(s) && NoDuplicates(s.searches)
    && forall id | id in s.searches ::
         && (exists b :: b in s.books && b.id == id)
         && forall b | b in s.books && b.id == id :: b.monitored || WasHandled(s, id)
  }

  lemma {:induction false} RunKeepsSettled(s: State, dry: bool)
    requires Settled(s)
    ensures Settled(Reconciled(s, dry))
  {
    var s' := Reconciled(s, dry);
    if !dry {
      var ids := ToSearch(s, s.authors);
      ToSearchDistinct(s, s.authors);
      forall id | id in ids
        ensures id !in s.searches && exists b :: b in s.books && b.id == id
      {
        ToSearchExact(s, s.authors, id);
      }
      Overlap(s.searches, ids);
      MonitoredAfterRun(s);
    }
  }

  lemma {:induction false} MonitoredAfterRun(s: State)
    requires Settled(s)
    requires forall id | id in ToSearch(s, s.authors) :: exists b :: b in s.books && b.id == id
    ensures var s' := Reconciled(s, false);
            forall id | id in s'.searches ::
              && (exists b :: b in s'.books && b.id == id)
              && forall b | b in s'.books && b.id == id :: b.monitored || WasHandled(s', id)
  {
    var s' := Reconciled(s, false);
    forall id | id in s'.searches
      ensures exists b :: b in s'.books && b.id == id
      ensures forall b | b in s'.books && b.id == id :: b.monitored || WasHandled(s', id)
    {
      var b :| b in s.books && b.id == id;
      var i :| 0 <= i < |s.books| && s.books[i] == b;
      assert s'.books[i] in s'.books && s'.books[i].id == id;
      forall b' | b' in s'.books && b'.id == id
        ensures b'.monitored || WasHandled(s', id)
      {
        var j :| 0 <= j < |s.books| && s'.books[j] == b';
        assert s.books[j] in s.books;
      }
    }
  }

  lemma {:induction false} EventKeepsSettled(s: State, e: Event)
    requires Settled(s) && Allowed(s, e)
    ensures Settled(Applied(s, e))
  {
    var s' := Applied(s, e);
    EventKeepsDistinct(s, e);
    forall id | id in s'.searches
      ensures exists b :: b in s'.books && b.id == id
      ensures forall b | b in s'.books && b.id == id :: b.monitored || WasHandled(s', id)
    {
      EventKeepsBook(s, e, id);
    }
  }

  lemma {:induction false} EventKeepsDistinct(s: State, e: Event)
    requires Distinct(s) && HasFreshId(s, e)
    ensures Distinct(Applied(s, e))
  {
    var s' := Applied(s, e);
    assert forall i | 0 <= i < |s.books| :: s'.books[i].id == s.books[i].id;
    assert forall i | 0 <= i < |s.authors| :: s'.authors[i].id == s.authors[i].id;
    assert forall i | 0 <= i < |s.books| :: s.books[i] in s.books;
    assert forall i | 0 <= i < |s.authors| :: s.authors[i] in s.authors;
  }

  lemma {:induction false} EventKeepsBook(s: State, e: Event, id: int)
    requires Allowed(s, e)
    requires exists b :: b in s.books && b.id == id
    requires forall b | b in s.books && b.id == id :: b.monitored || WasHandled(s, id)
    ensures exists b :: b in Applied(s, e).books && b.id == id
    ensures forall b | b in Applied(s, e).books && b.id == id :: b.monitored || WasHandled(Applied(s, e), id)
  {
    var s' := Applied(s, e);
    var b :| b in s.books && b.id == id;
    var i :| 0 <= i < |s.books| && s.books[i] == b;
    assert s'.books[i] in s'.books && s'.books[i].id == id;
    forall b' | b' in s'.books && b'.id == id
      ensures b'.monitored || WasHandled(s', id)
    {
      var j :| 0 <= j < |s'.books| && s'.books[j] == b';
      if j < |s.books| {
        assert s.books[j] in s.books && s.books[j].id == id;
      }
    }
  }

  lemma {:induction false} SettledSearches(s: State)
    requires Settled(s)
    ensures NoDuplicates(s.searches)
  {
  }

  /** Over all interleavings of runs with allowed events, every book is searched at most once. */
  lemma {:induction false} SearchedAtMostOnce(s: State, actions: seq<Action>)
    requires Settled(s) && AllAllowed(s, actions)
    ensures Settled(Executed(s, actions))
    ensures NoDuplicates(Executed(s, actions).searches)
  {
    hide Reconciled, Applied, Allowed, Settled;
    if actions != [] {
      var n := |actions| - 1;
      assert forall k | 0 <= k < n :: actions[..n][k] == actions[k] && actions[..n][..k] == actions[..k];
      SearchedAtMostOnce(s, actions[..n]);
      var before := Executed(s, actions[..n]);
      match actions[n]
      case Reconcile(dry) => RunKeepsSettled(before, dry);
      case Outside(e) => EventKeepsSettled(before, e);
    }
    SettledSearches(Executed(s, actions));
  }

  // ---- The conditions are needed ----

  /** No book that has been searched would be searched again. */
  ghost predicate NothingOldIsNew(s: State) {
    forall a, b | a in s.authors && b in s.books && b.id in s.searches :: !IsNew(s, a, b)
  }

  /** The next run repeats no search iff no book searched before looks new again. */
  lemma {:induction false} NextRunRepeatsIff(s: State)
    requires Distinct(s) && NoDuplicates(s.searches)
    ensures NoDuplicates(Reconciled(s, false).searches) <==> NothingOldIsNew(s)
  {
    var ids := ToSearch(s, s.authors);
    ToSearchDistinct(s, s.authors);
    Overlap(s.searches, ids);
    if NothingOldIsNew(s) {
      forall id | id in s.searches
        ensures id !in ids
      {
        ToSearchExact(s, s.authors, id);
      }
    }
    if forall id | id in s.searches :: id !in ids {
      forall a, b | a in s.authors && b in s.books && b.id in s.searches
        ensures !IsNew(s, a, b)
      {
        ToSearchExact(s, s.authors, b.id);
      }
    }
  }

  predicate AllFresh(s: State, actions: seq<Action>) {
    forall k | 0 <= k < |actions| && actions[k].Outside? :: HasFreshId(Executed(s, actions[..k]), actions[k].e)
  }

  lemma {:induction false} RunKeepsDistinct(s: State, dry: bool)
    requires Distinct(s)
    ensures Distinct(Reconciled(s, dry))
  {
    hide ToSearch, NeedsMonitoring, AuthorWrites;
    if !dry {
      var s' := Reconciled(s, dry);
      assert forall i | 0 <= i < |s.books| :: s'.books[i].id == s.books[i].id;
      assert forall i | 0 <= i < |s.authors| :: s'.authors[i].id == s.authors[i].id;
    }
  }

  /** What one action does to the searches. */
  function Step(s: State, action: Action): State {
    match action case Reconcile(dry) => Reconciled(s, dry) case Outside(e) => Applied(s, e)
  }

  lemma {:induction false} StepSearches(s: State, action: Action)
    requires Distinct(s) && (action.Outside? ==> HasFreshId(s, action.e))
    ensures Distinct(Step(s, action))
    ensures !NoDuplicates(s.searches) ==> !NoDuplicates(Step(s, action).searches)
    ensures NoDuplicates(s.searches) ==>
              (NoDuplicates(Step(s, action).searches) <==> (action == Reconcile(false) ==> NothingOldIsNew(s)))
  {
    hide NothingOldIsNew, Distinct, HasFreshId;
    match action
    case Reconcile(dry) =>
      RunKeepsDistinct(s, dry);
      if !dry {
        MoreDuplicates(s.searches, ToSearch(s, s.authors));
        if NoDuplicates(s.searches) {
          NextRunRepeatsIff(s);
        }
      }
    case Outside(e) =>
      EventKeepsDistinct(s, e);
  }

  lemma {:induction false} MoreDuplicates(a: seq<int>, b: seq<int>)
    ensures NoDuplicates(a + b) ==> NoDuplicates(a)
  {
    if NoDuplicates(a + b) {
      assert forall i | 0 <= i < |a| :: (a + b)[i] == a[i];
    }
  }

  /** If action `k` is a run, it meets no searched book that looks new again. */
  ghost predicate RepeatsNothing(s: State, actions: seq<Action>, k: nat)
    requires k < |actions|
  {
    actions[k] == Reconcile(false) ==> NothingOldIsNew(Executed(s, actions[..k]))
  }

  /**
   Exactly when no book is searched twice, over all interleavings of runs with anything that others may do: iff no
   run meets a searched book that is open again and whose first page of history shows neither grab nor import.
   */
  lemma {:induction false} SearchedOnceIff(s: State, actions: seq<Action>)
    requires Distinct(s) && NoDuplicates(s.searches) && AllFresh(s, actions)
    ensures Distinct(Executed(s, actions))
    ensures NoDuplicates(Executed(s, actions).searches) <==>
              forall k | 0 <= k < |actions| :: RepeatsNothing(s, actions, k)
  {
    hide NothingOldIsNew, Distinct, HasFreshId, NoDuplicates, Reconciled, Applied;
    if actions != [] {
      var n := |actions| - 1;
      var init := actions[..n];
      assert forall k | 0 <= k < n :: init[k] == actions[k] && init[..k] == actions[..k];
      SearchedOnceIff(s, init);
      StepSearches(Executed(s, init), actions[n]);
      assert Executed(s, actions) == Step(Executed(s, init), actions[n]);
      forall k | 0 <= k < n
        ensures RepeatsNothing(s, init, k) <==> RepeatsNothing(s, actions, k)
      {
        assert init[..k] == actions[..k];
      }
      assert RepeatsNothing(s, actions, n) <==> (actions[n] == Reconcile(false) ==> NothingOldIsNew(Executed(s, init)));
    }
  }

  lemma {:induction false} Overlap(a: seq<int>, b: seq<int>)
    requires NoDuplicates(a) && NoDuplicates(b)
    ensures NoDuplicates(a + b) <==> forall x | x in a :: x !in b
  {
    if NoDuplicates(a + b) {
      forall x | x in a
        ensures x !in b
      {
        var i :| 0 <= i < |a| && a[i] == x;
        forall j | 0 <= j < |b|
          ensures b[j] != x
        {
          assert (a + b)[i] == x && (a + b)[|a| + j] == b[j];
        }
      }
    }
    if forall x | x in a :: x !in b {
      forall i, j | 0 <= i < j < |a + b|
        ensures (a + b)[i] != (a + b)[j]
      {
        if i < |a| <= j {
          assert a[i] in a && b[j - |a|] in b;
        }
      }
    }
  }

  /** Fifty records of other kinds push a grab off the page: the book looks new again. */
  lemma {:induction false} FullPageHidesGrab(later: seq<string>, h: seq<string>)
    requires |later| >= PAGE && forall t | t in later :: !IsHandling(t)
    ensures !Handles(later + h)
  {
    assert forall i | 0 <= i < PAGE :: (later + h)[i] in later;
  }

  /** One record fewer leaves it visible. */
  lemma {:induction false} PageStillShowsGrab(later: seq<string>, t: string, h: seq<string>)
    requires |later| < PAGE && IsHandling(t)
    ensures Handles(later + [t] + h)
  {
    var all := later + [t] + h;
    assert Page(all)[|later|] == t;
  }

  /** A book that was grabbed or imported, last in front of `later` other records, is searched iff they fill the page. */
  lemma {:induction false} GrabbedAgainIff(s: State, id: int, later: seq<string>, t: string, h: seq<string>)
    requires HistoryOf(s, id) == later + [t] + h && IsHandling(t) && forall x | x in later :: !IsHandling(x)
    ensures id in ToSearch(s, s.authors) <==>
              |later| >= PAGE && exists a, b :: a in s.authors && b in s.books && b.id == id && IsOpen(s, a, b)
  {
    hide IsOpen, Handles, IsHandling;
    ToSearchExact(s, s.authors, id);
    if |later| >= PAGE {
      FullPageHidesGrab(later, [t] + h);
      assert later + ([t] + h) == later + [t] + h;
    } else {
      PageStillShowsGrab(later, t, h);
    }
    if exists a, b :: a in s.authors && b in s.books && b.id == id && IsOpen(s, a, b) {
      var a, b :| a in s.authors && b in s.books && b.id == id && IsOpen(s, a, b);
      assert |later| >= PAGE ==> IsNew(s, a, b);
    }
  }

  // ---- A book that is searched twice ----

  /** A server with one author, one wanted series and one volume of it, number 7. */
  function OneBook(h: seq<string>, monitored: bool, searches: seq<int>, writes: nat): State {
    State(map[1 := "s"], [Author(1, [1], true, "none")], [Book(7, 1, "s #1", monitored, 0)], map[7 := h], searches, writes)
  }

  lemma {:induction false} TheSeries()
    ensures SeriesName("s #1") == "s" && Slug("s") == "s"
  {
    assert "" + "s" + "" == "s";
    StripCore("", "s", "");
    assert "s" + " " + "#" + "1" == "s #1";
    VolumeOfSeries("s", " ", "1");
    assert IsSlug("s");
    SlugExact("s");
  }

  lemma {:induction false} OneBookIsOpen(h: seq<string>, searches: seq<int>, writes: nat)
    ensures var s := OneBook(h, false, searches, writes); IsOpen(s, s.authors[0], s.books[0])
  {
    hide SeriesName, Slug;
    TheSeries();
    var s := OneBook(h, false, searches, writes);
    assert 1 in s.authors[0].tags && s.tags[1] in Wanted(s, s.authors[0]);
  }

  lemma {:induction false} OneBookFound(h: seq<string>, searches: seq<int>, writes: nat)
    requires !Handles(h)
    ensures var s := OneBook(h, false, searches, writes); ToSearch(s, s.authors) == [7] && AuthorWrites(s, s.authors) == 0
  {
    hide IsOpen, Handles, Wanted;
    var s := OneBook(h, false, searches, writes);
    OneBookIsOpen(h, searches, writes);
    assert s.authors[..0] == [] && s.books[..0] == [];
    assert HistoryOf(s, 7) == h;
    assert NewAmong(s, s.authors[0], s.books) == NewAmong(s, s.authors[0], s.books[..0]) + [7];
    assert !NeedsMonitoring(s, s.authors[0]);
  }

  lemma {:induction false} OneBookRun(h: seq<string>, searches: seq<int>, writes: nat)
    requires !Handles(h)
    ensures Reconciled(OneBook(h, false, searches, writes), false) == OneBook(h, true, searches + [7], writes + 2)
  {
    hide ToSearch, Handles, AuthorWrites, NeedsMonitoring;
    var s := OneBook(h, false, searches, writes);
    OneBookFound(h, searches, writes);
    OneBookAuthors(s);
    assert Monitor(s.books, [7])[0] == s.books[0].(monitored := true);
  }

  lemma {:induction false} OneBookAuthors(s: State)
    requires |s.authors| == 1 && s.authors[0].monitored
    ensures AdjustedAuthors(s, 1) == s.authors
  {
    hide Wanted;
  }

  lemma {:induction false} OneBookRecord(h: seq<string>, monitored: bool, searches: seq<int>, writes: nat, t: string)
    ensures Applied(OneBook(h, monitored, searches, writes), Record(7, t)) == OneBook([t] + h, monitored, searches, writes)
  {
  }

  lemma {:induction false} OneBookUnmonitored(h: seq<string>, searches: seq<int>, writes: nat)
    ensures Applied(OneBook(h, true, searches, writes), SetMonitored(7, false)) == OneBook(h, false, searches, writes)
  {
    var s := OneBook(h, true, searches, writes);
    assert Applied(s, SetMonitored(7, false)).books == [s.books[0].(monitored := false)];
    assert Applied(s, SetMonitored(7, false)).authors == s.authors;
  }

  /** `n` records that are neither grabs nor imports. */
  function Renamed(n: nat): seq<string> {
    if n == 0 then [] else ["renamed"] + Renamed(n - 1)
  }

  function Records(n: nat): seq<Action> {
    if n == 0 then [] else Records(n - 1) + [Outside(Record(7, "renamed"))]
  }

  lemma {:induction false} RenamedShape(n: nat)
    ensures |Renamed(n)| == n && forall x | x in Renamed(n) :: !IsHandling(x)
  {
    if n > 0 {
      RenamedShape(n - 1);
    }
  }

  lemma {:induction false} ExecutedAppend(s: State, actions: seq<Action>, action: Action)
    ensures Executed(s, actions + [action]) == Step(Executed(s, actions), action)
  {
    hide Reconciled, Applied;
    assert (actions + [action])[..|actions|] == actions;
  }

  lemma {:induction false} RecordsRun(s: State, actions: seq<Action>, n: nat, h: seq<string>, searches: seq<int>, writes: nat)
    requires Executed(s, actions) == OneBook(h, false, searches, writes)
    ensures Executed(s, actions + Records(n)) == OneBook(Renamed(n) + h, false, searches, writes)
  {
    hide Executed, Applied, OneBook;
    if n == 0 {
      assert actions + [] == actions && [] + h == h;
    } else {
      RecordsRun(s, actions, n - 1, h, searches, writes);
      var before := actions + Records(n - 1);
      assert actions + Records(n) == before + [Outside(Record(7, "renamed"))];
      ExecutedAppend(s, before, Outside(Record(7, "renamed")));
      OneBookRecord(Renamed(n - 1) + h, false, searches, writes, "renamed");
      assert ["renamed"] + (Renamed(n - 1) + h) == Renamed(n) + h;
    }
  }

  /** Found, grabbed, unmonitored when it has been read; then come `n` other records and the next run. */
  function Regrab(n: nat): seq<Action> {
    [Reconcile(false)] + [Outside(Record(7, "grabbed"))] + [Outside(SetMonitored(7, false))] + Records(n) + [Reconcile(false)]
  }

  /** With fifty other records the book is searched a second time, although it was grabbed. */
  lemma {:induction false} SearchedTwice()
    ensures Executed(OneBook([], false, [], 0), Regrab(PAGE)).searches == [7, 7]
  {
    hide Executed, Reconciled, Applied, Handles, Renamed, Records, IsHandling;
    var s := OneBook([], false, [], 0);
    var found := [] + [Reconcile(false)];
    var grabbed := found + [Outside(Record(7, "grabbed"))];
    var read := grabbed + [Outside(SetMonitored(7, false))];
    assert [] + [Reconcile(false)] == [Reconcile(false)];
    NothingExecuted(s);
    ExecutedAppend(s, [], Reconcile(false));
    OneBookRun([], [], 0);
    ExecutedAppend(s, found, Outside(Record(7, "grabbed")));
    OneBookRecord([], true, [7], 2, "grabbed");
    ExecutedAppend(s, grabbed, Outside(SetMonitored(7, false)));
    assert ["grabbed"] + [] == ["grabbed"] && [] + [7] == [7];
    OneBookUnmonitored(["grabbed"], [7], 2);
    RecordsRun(s, read, PAGE, ["grabbed"], [7], 2);
    ExecutedAppend(s, read + Records(PAGE), Reconcile(false));
    RenamedShape(PAGE);
    FullPageHidesGrab(Renamed(PAGE), ["grabbed"]);
    OneBookRun(Renamed(PAGE) + ["grabbed"], [7], 2);
  }

  lemma {:induction false} NothingExecuted(s: State)
    ensures Executed(s, []) == s && !Handles([])
  {
  }
}
