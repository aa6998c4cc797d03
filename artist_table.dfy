/**
  The artist table of the program: a hash map from an artist's name to the
  list of their works (`type Table = HashMap<String, Vec<String>>`), built by
  three `insert` calls and then sorted in place by `sort_works`.

  The caller owns the table; `sort_works` borrows it mutably, which here is a
  method that `modifies` the table object and nothing else.
 */
module ArtistTable {
  import opened Options
  import opened StringOrder
  import opened WorkSort

  class Table {
    var works: map<string, seq<string>>

    /** `Table::new()`: an empty table. */
    constructor ()
      ensures works == map[]
    {
      works := map[];
    }

    /** `HashMap::insert`: maps `artist` to `titles`, replacing and returning any previous list. */
    method Insert(artist: string, titles: seq<string>) returns (previous: Option<seq<string>>)
      modifies this
      ensures works == old(works)[artist := titles]
      ensures previous == if artist in old(works) then Some(old(works)[artist]) else None
    {
      previous := if artist in works then Some(works[artist]) else None;
      works := works[artist := titles];
    }
  }

  predicate AllSorted(works: map<string, seq<string>>)
  {
    forall artist :: artist in works ==> Sorted(works[artist])
  }

  /** The table `sort_works` leaves behind: every list sorted, keys and titles kept. */
  function SortAll(works: map<string, seq<string>>): (sorted: map<string, seq<string>>)
    ensures sorted.Keys == works.Keys
    ensures AllSorted(sorted)
    ensures forall artist :: artist in sorted ==> multiset(sorted[artist]) == multiset(works[artist])
  {
    map artist | artist in works :: Sort(works[artist])
  }

  /** Any table with the same artists whose lists are sorted permutations of the old ones is `SortAll` of it. */
  lemma SortAllIsUnique(works: map<string, seq<string>>, sorted: map<string, seq<string>>)
    requires sorted.Keys == works.Keys && AllSorted(sorted)
    requires forall artist :: artist in sorted ==> multiset(sorted[artist]) == multiset(works[artist])
    ensures sorted == SortAll(works)
  {
    forall artist | artist in works ensures sorted[artist] == SortAll(works)[artist] {
      SortIsUnique(works[artist], sorted[artist]);
    }
  }

  /** Sorting a table whose lists are already sorted changes nothing. */
  lemma SortAllFixesSorted(works: map<string, seq<string>>)
    requires AllSorted(works)
    ensures SortAll(works) == works
  {
    forall artist | artist in works ensures SortAll(works)[artist] == works[artist] {
      SortFixesSorted(works[artist]);
    }
  }

  lemma SortAllIdempotent(works: map<string, seq<string>>)
    ensures SortAll(SortAll(works)) == SortAll(works)
  {
    SortAllFixesSorted(SortAll(works));
  }

  /** The table part-way through `sort_works`: the lists of the artists in `pending` are still as they were. */
  function SortedExcept(works: map<string, seq<string>>, pending: set<string>): map<string, seq<string>>
  {
    map artist | artist in works :: if artist in pending then works[artist] else Sort(works[artist])
  }

  lemma SortedExceptStep(works: map<string, seq<string>>, pending: set<string>, artist: string)
    requires artist in pending && artist in works
    ensures SortedExcept(works, pending - {artist}) == SortedExcept(works, pending)[artist := Sort(works[artist])]
  {
  }

  lemma SortedExceptNone(works: map<string, seq<string>>)
    ensures SortedExcept(works, {}) == SortAll(works)
    ensures SortedExcept(works, works.Keys) == works
  {
  }

  /** `sort_works`: sorts every artist's list in place, visiting the artists in the map's (unspecified) order. */
  method SortWorks(table: Table)
    modifies table
    ensures table.works == SortAll(old(table.works))
    ensures table.works.Keys == old(table.works).Keys
    ensures forall artist :: artist in table.works ==>
      Sorted(table.works[artist]) && multiset(table.works[artist]) == multiset(old(table.works)[artist])
    ensures AllSorted(old(table.works)) ==> table.works == old(table.works)
  {
    ghost var original := table.works;
    SortedExceptNone(original);
    var pending := table.works.Keys;
    while pending != {}
      invariant pending <= original.Keys
      invariant table.works == SortedExcept(original, pending)
      decreases pending
    {
      var artist :| artist in pending;
      SortedExceptStep(original, pending, artist);
      table.works := table.works[artist := Sort(table.works[artist])];
      pending := pending - {artist};
    }
    if AllSorted(original) {
      SortAllFixesSorted(original);
    }
  }

  /** The table as built by the three `insert` calls. */
  function Unsorted(): map<string, seq<string>>
  {
    map[
      "Gesualdo" := ["many madrigals", "Tenebrae Responsoria"],
      "Caravaggio" := ["The Musicians", "The Calling of St. Matthew"],
      "Cellini" := ["Perseus with the head of Medusa", "a salt cellar"]
    ]
  }

  /** The same table after `sort_works`, under byte order ('C' < 'M' < 'P' < 'T' < 'a' < 'm'). */
  function SortedByBytes(): map<string, seq<string>>
  {
    map[
      "Gesualdo" := ["Tenebrae Responsoria", "many madrigals"],
      "Caravaggio" := ["The Calling of St. Matthew", "The Musicians"],
      "Cellini" := ["Perseus with the head of Medusa", "a salt cellar"]
    ]
  }

  lemma SortGesualdo()
    ensures Sort(["many madrigals", "Tenebrae Responsoria"]) == ["Tenebrae Responsoria", "many madrigals"]
  {
    LexLeAtDifference("Tenebrae Responsoria", "many madrigals", 0);
    SortPair("many madrigals", "Tenebrae Responsoria");
  }

  lemma SortCaravaggio()
    ensures Sort(["The Musicians", "The Calling of St. Matthew"]) == ["The Calling of St. Matthew", "The Musicians"]
  {
    var musicians, calling := "The Musicians", "The Calling of St. Matthew";
    assert calling[..4] == musicians[..4];
    LexLeAtDifference(calling, musicians, 4);
    SortPair(musicians, calling);
  }

  lemma SortCellini()
    ensures Sort(["Perseus with the head of Medusa", "a salt cellar"]) == ["Perseus with the head of Medusa", "a salt cellar"]
  {
    LexLeAtDifference("Perseus with the head of Medusa", "a salt cellar", 0);
    SortPair("Perseus with the head of Medusa", "a salt cellar");
  }

  /** Sorting a table after an insert is sorting it before and inserting the sorted list. */
  lemma SortAllInsert(works: map<string, seq<string>>, artist: string, titles: seq<string>)
    ensures SortAll(works[artist := titles]) == SortAll(works)[artist := Sort(titles)]
  {
    var after, before := SortAll(works[artist := titles]), SortAll(works)[artist := Sort(titles)];
    assert after.Keys == before.Keys;
    forall other | other in after ensures after[other] == before[other] {
      if other != artist {
        assert works[artist := titles][other] == works[other];
      }
    }
  }

  lemma SortUnsorted()
    ensures SortAll(Unsorted()) == SortedByBytes()
  {
    var gesualdo, caravaggio, cellini := Unsorted()["Gesualdo"], Unsorted()["Caravaggio"], Unsorted()["Cellini"];
    var empty: map<string, seq<string>> := map[];
    assert Unsorted() == empty["Gesualdo" := gesualdo]["Caravaggio" := caravaggio]["Cellini" := cellini];
    SortAllInsert(empty, "Gesualdo", gesualdo);
    SortAllInsert(empty["Gesualdo" := gesualdo], "Caravaggio", caravaggio);
    SortAllInsert(empty["Gesualdo" := gesualdo]["Caravaggio" := caravaggio], "Cellini", cellini);
    SortGesualdo();
    SortCaravaggio();
    SortCellini();
  }

  /** The program's `main` without its printing: build the table, check the first
      work of Gesualdo, sort. Returns the table before and after sorting. */
  method Lesson() returns (built: map<string, seq<string>>, sorted: map<string, seq<string>>)
    ensures built == Unsorted()
    ensures built.Keys == {"Gesualdo", "Caravaggio", "Cellini"}
    ensures built["Gesualdo"][0] == "many madrigals"
    ensures sorted == SortedByBytes()
  {
    var table := new Table();
    var _ := table.Insert("Gesualdo", ["many madrigals", "Tenebrae Responsoria"]);
    var _ := table.Insert("Caravaggio", ["The Musicians", "The Calling of St. Matthew"]);
    var _ := table.Insert("Cellini", ["Perseus with the head of Medusa", "a salt cellar"]);
    assert table.works["Gesualdo"][0] == "many madrigals";
    built := table.works;
    SortWorks(table);
    sorted := table.works;
    SortUnsorted();
  }
}
