/**
 The series reconciler as a control loop against a server whose state others change between the runs.
 */
module Reconciler {
  import opened Text
  import opened SeriesNames

  datatype Author = Author(id: int, tags: seq<int>, monitored: bool, monitorNewItems: string)
  datatype Book = Book(id: int, authorId: int, seriesTitle: string, monitored: bool, fileCount: nat)

  /**
   The server: tag labels by id, authors, books, the event types of each book's history (newest first), the
   books searched so far, and the number of requests that changed something.
   */
  datatype State = State(tags: map<int, string>, authors: seq<Author>, books: seq<Book>,
                         history: map<int, seq<string>>, searches: seq<int>, writes: nat)

  const PAGE := 50

  function Page(h: seq<string>): seq<string> {
    if |h| <= PAGE then h else h[..PAGE]
  }

  predicate IsHandling(eventType: string) {
    eventType == "grabbed" || eventType == "bookFileImported" || eventType == "downloadImported"
  }

  function HistoryOf(s: State, id: int): seq<string> {
    if id in s.history then s.history[id] else []
  }

  predicate Handles(h: seq<string>) {
    exists i | 0 <= i < |Page(h)| :: IsHandling(Page(h)[i])
  }

  /** `was_handled`: the first page of the history shows a grab or an import. */
  predicate WasHandled(s: State, id: int) {
    Handles(HistoryOf(s, id))
  }

  function Wanted(s: State, a: Author): set<string> {
    set t | t in a.tags && t in s.tags :: s.tags[t]
  }

  /** A volume of a wanted series that is unmonitored and has no file. */
  predicate IsOpen(s: State, a: Author, b: Book) {
    && b.authorId == a.id
    && SeriesName(b.seriesTitle) != "" && Slug(SeriesName(b.seriesTitle)) in Wanted(s, a)
    && !b.monitored && b.fileCount == 0
  }

  /** Such a volume that has not been handled. */
  predicate IsNew(s: State, a: Author, b: Book) {
    IsOpen(s, a, b) && !WasHandled(s, b.id)
  }

  function NewAmong(s: State, a: Author, books: seq<Book>): seq<int> {
    if books == [] then []
    else NewAmong(s, a, books[..|books| - 1]) + if IsNew(s, a, books[|books| - 1]) then [books[|books| - 1].id] else []
  }

  /** The books to search, author by author. */
  function ToSearch(s: State, authors: seq<Author>): seq<int> {
    if authors == [] then []
    else ToSearch(s, authors[..|authors| - 1]) + NewAmong(s, authors[|authors| - 1], s.books)
  }

  predicate NeedsMonitoring(s: State, a: Author) {
    Wanted(s, a) != {} && !a.monitored
  }

  function Adjusted(s: State, a: Author): Author {
    if NeedsMonitoring(s, a) then a.(monitored := true, monitorNewItems := "none") else a
  }

  function AdjustedAuthors(s: State, k: nat): seq<Author>
    requires k <= |s.authors|
  {
    seq(|s.authors|, i requires 0 <= i < |s.authors| => if i < k then Adjusted(s, s.authors[i]) else s.authors[i])
  }

  function AuthorWrites(s: State, authors: seq<Author>): nat {
    if authors == [] then 0
    else AuthorWrites(s, authors[..|authors| - 1]) + if NeedsMonitoring(s, authors[|authors| - 1]) then 1 else 0
  }

  function Monitor(books: seq<Book>, ids: seq<int>): seq<Book> {
    seq(|books|, i requires 0 <= i < |books| => if books[i].id in ids then books[i].(monitored := true) else books[i])
  }

  /** What one run makes of the server. A dry run only looks. */
  function Reconciled(s: State, dry: bool): State {
    if dry then s
    else
      var ids := ToSearch(s, s.authors);
      s.(authors := AdjustedAuthors(s, |s.authors|), books := Monitor(s.books, ids), searches := s.searches + ids,
         writes := s.writes + AuthorWrites(s, s.authors) + if ids == [] then 0 else 2)
  }

  class Server {
    var state: State

    /** `main` */
    method Run(dry: bool) returns (toSearch: seq<int>)
      modifies this
      ensures toSearch == ToSearch(old(state), old(state).authors)
      ensures state == Reconciled(old(state), dry)
    {
      hide NewAmong, Wanted, WasHandled, AdjustedAuthors, AuthorWrites, Monitor;
      ghost var s := state;
      NothingDone(s);
      toSearch := [];
      var authors := state.authors;
      var i := 0;
      while i < |authors|
        invariant i <= |authors| && authors == s.authors
        invariant toSearch == ToSearch(s, authors[..i])
        invariant state == if dry then s
                           else s.(authors := AdjustedAuthors(s, i), writes := s.writes + AuthorWrites(s, authors[..i]))
      {
        var author := authors[i];
        assert authors[..i + 1][..i] == authors[..i];
        ViewUnchanged(s, state, author);
        AdjustNext(s, i);
        WritesNext(s, i);
        var wanted := Wanted(state, author);
        if wanted == {} {
          NothingWanted(s, author, s.books);
          i := i + 1;
          continue;
        }
        if !author.monitored {
          if !dry {
            author := author.(monitored := true, monitorNewItems := "none");
            state := state.(authors := state.authors[i := author], writes := state.writes + 1);
          }
        }
        var found := NewBooks(state, author);
        ViewUnchanged(s, state, author);
        SameView(s, s.authors[i], author, s.books);
        toSearch := toSearch + found;
        i := i + 1;
      }
      assert authors[..i] == authors;
      if toSearch != [] {
        if !dry {
          state := state.(books := Monitor(state.books, toSearch), writes := state.writes + 1);
          state := state.(searches := state.searches + toSearch, writes := state.writes + 1);
        }
      }
    }

    /** The inner loop: the new volumes of one author. */
    static method NewBooks(s: State, author: Author) returns (found: seq<int>)
      ensures found == NewAmong(s, author, s.books)
    {
      found := [];
      var j := 0;
      while j < |s.books|
        invariant j <= |s.books|
        invariant found == NewAmong(s, author, s.books[..j])
      {
        var book := s.books[j];
        assert s.books[..j + 1][..j] == s.books[..j];
        j := j + 1;
        if book.authorId != author.id {
          continue;
        }
        var sname := SeriesName(book.seriesTitle);
        if sname == "" || Slug(sname) !in Wanted(s, author) {
          continue;
        }
        if book.monitored {
          continue;
        }
        if book.fileCount > 0 {
          continue;
        }
        if WasHandled(s, book.id) {
          continue;
        }
        found := found + [book.id];
      }
      assert s.books[..j] == s.books;
    }
  }

  lemma {:induction false} AdjustNext(s: State, i: nat)
    requires i < |s.authors|
    ensures AdjustedAuthors(s, i + 1) == AdjustedAuthors(s, i)[i := Adjusted(s, s.authors[i])]
    ensures |AdjustedAuthors(s, i)| == |s.authors| && AdjustedAuthors(s, i)[i] == s.authors[i]
    ensures Adjusted(s, s.authors[i]) == s.authors[i] ==> AdjustedAuthors(s, i + 1) == AdjustedAuthors(s, i)
  {
    hide Adjusted;
  }

  lemma {:induction false} NothingDone(s: State)
    ensures AdjustedAuthors(s, 0) == s.authors && AuthorWrites(s, []) == 0 && Monitor(s.books, []) == s.books
  {
  }

  lemma {:induction false} WritesNext(s: State, i: nat)
    requires i < |s.authors|
    ensures AuthorWrites(s, s.authors[..i + 1])
         == AuthorWrites(s, s.authors[..i]) + if NeedsMonitoring(s, s.authors[i]) then 1 else 0
  {
    hide NeedsMonitoring;
    assert s.authors[..i + 1][..i] == s.authors[..i];
  }

  /** Two states that show the loop the same tags, books and history. */
  predicate SameSight(s: State, s': State) {
    s.tags == s'.tags && s.books == s'.books && s.history == s'.history
  }

  lemma {:induction false} SightDecides(s: State, s': State, a: Author, a': Author, books: seq<Book>)
    requires SameSight(s, s') && a.id == a'.id && a.tags == a'.tags
    ensures NewAmong(s, a, books) == NewAmong(s', a', books)
  {
    if books != [] {
      SightDecides(s, s', a, a', books[..|books| - 1]);
    }
  }

  lemma {:induction false} ViewUnchanged(s: State, s': State, a: Author)
    requires SameSight(s, s')
    ensures Wanted(s, a) == Wanted(s', a) && NewAmong(s, a, s.books) == NewAmong(s', a, s.books)
  {
    SightDecides(s, s', a, a, s.books);
  }

  lemma {:induction false} SameView(s: State, a: Author, a': Author, books: seq<Book>)
    requires a.id == a'.id && a.tags == a'.tags
    ensures NewAmong(s, a, books) == NewAmong(s, a', books)
  {
    SightDecides(s, s, a, a', books);
  }

  lemma {:induction false} NothingWanted(s: State, a: Author, books: seq<Book>)
    requires Wanted(s, a) == {}
    ensures NewAmong(s, a, books) == []
  {
    if books != [] {
      NothingWanted(s, a, books[..|books| - 1]);
    }
  }
}
