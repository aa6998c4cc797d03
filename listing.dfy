/**
  `show`: the read-only listing of an artist table.

  For each artist the listing has a header line `works by {artist}:` and then
  one line ` {work}` per work, in the order of that artist's list. Artists
  come in the hash map's iteration order, which is unspecified: it is a
  parameter here, constrained by `IsIterationOrder` to visit every artist
  exactly once. The listing is a function of the table's value, so producing
  it cannot change the table.

  `Parse` reads a listing back; `ShowRoundTrip` proves that it recovers every
  artist with their works, so the sequence of lines loses nothing.
 */
module Listing {
  import opened Options

  /** The header line `show` prints for an artist. */
  function Header(artist: string): string
  {
    "works by " + artist + ":"
  }

  /** The line `show` prints for one work. */
  function WorkLine(work: string): string
  {
    " " + work
  }

  /** The inner loop of `show`: one line per work, in list order. */
  function WorkLines(works: seq<string>): (lines: seq<string>)
    ensures |lines| == |works|
    ensures forall i :: 0 <= i < |works| ==> lines[i] == WorkLine(works[i])
  {
    if works == [] then [] else [WorkLine(works[0])] + WorkLines(works[1..])
  }

  /** One pass of the outer loop of `show`. */
  function EntryLines(artist: string, works: seq<string>): seq<string>
  {
    [Header(artist)] + WorkLines(works)
  }

  /** `order` lists every artist of `table` exactly once, as iterating over the map does. */
  predicate IsIterationOrder(order: seq<string>, table: map<string, seq<string>>)
  {
    && (forall i :: 0 <= i < |order| ==> order[i] in table)
    && (forall artist :: artist in table ==> artist in order)
    && (forall i, j :: 0 <= i < j < |order| ==> order[i] != order[j])
  }

  /** After the first artist is visited, the rest of the order visits the rest of the table. */
  lemma IterationOrderRest(order: seq<string>, table: map<string, seq<string>>)
    requires IsIterationOrder(order, table) && order != []
    ensures IsIterationOrder(order[1..], table - {order[0]})
    ensures |table - {order[0]}| == |table| - 1
  {
    forall artist | artist in table - {order[0]} ensures artist in order[1..] {
      var i :| 0 <= i < |order| && order[i] == artist;
      assert order[1..][i - 1] == artist;
    }
  }

  lemma IterationOrderEmpty(order: seq<string>, table: map<string, seq<string>>)
    requires IsIterationOrder(order, table) && order == []
    ensures table == map[]
  {
  }

  function Show(table: map<string, seq<string>>, order: seq<string>): seq<string>
    requires IsIterationOrder(order, table)
    decreases |order|
  {
    if order == [] then []
    else
      IterationOrderRest(order, table);
      EntryLines(order[0], table[order[0]]) + Show(table - {order[0]}, order[1..])
  }

  // Order-independent totals over a table.

  /** Adds up `f` over all artists of `table`, in an arbitrary order. */
  ghost function Gather(table: map<string, seq<string>>, f: (string, seq<string>) -> multiset<string>): multiset<string>
    decreases |table|
  {
    if table == map[] then multiset{}
    else
      var artist :| artist in table;
      assert |table - {artist}| == |table| - 1;
      f(artist, table[artist]) + Gather(table - {artist}, f)
  }

  /** The total does not depend on which artist is taken first. */
  lemma GatherRemove(table: map<string, seq<string>>, f: (string, seq<string>) -> multiset<string>, artist: string)
    requires artist in table
    ensures Gather(table, f) == f(artist, table[artist]) + Gather(table - {artist}, f)
    decreases |table|
  {
    var first :| first in table && Gather(table, f) == f(first, table[first]) + Gather(table - {first}, f);
    if first != artist {
      assert |table - {first}| == |table| - 1 && |table - {artist}| == |table| - 1;
      GatherRemove(table - {first}, f, artist);
      GatherRemove(table - {artist}, f, first);
      assert table - {first} - {artist} == table - {artist} - {first};
    }
  }

  function EntryLineBag(artist: string, works: seq<string>): multiset<string>
  {
    multiset(EntryLines(artist, works))
  }

  function TitleBag(artist: string, works: seq<string>): multiset<string>
  {
    multiset(works)
  }

  /** Every line the listing of `table` consists of, whatever the order. */
  ghost function AllLines(table: map<string, seq<string>>): multiset<string>
  {
    Gather(table, EntryLineBag)
  }

  /** Every work title of `table`, counted once per list it appears in. */
  ghost function AllTitles(table: map<string, seq<string>>): multiset<string>
  {
    Gather(table, TitleBag)
  }

  /** The listing has one line per artist plus one per work. */
  lemma {:induction false} ShowLineCount(table: map<string, seq<string>>, order: seq<string>)
    requires IsIterationOrder(order, table)
    ensures |Show(table, order)| == |table| + |AllTitles(table)|
    decreases |order|
  {
    if order == [] {
      IterationOrderEmpty(order, table);
    } else {
      IterationOrderRest(order, table);
      ShowLineCount(table - {order[0]}, order[1..]);
      GatherRemove(table, TitleBag, order[0]);
    }
  }

  /** Whatever the iteration order, the listing holds the same lines. */
  lemma {:induction false} ShowLines(table: map<string, seq<string>>, order: seq<string>)
    requires IsIterationOrder(order, table)
    ensures multiset(Show(table, order)) == AllLines(table)
    decreases |order|
  {
    if order == [] {
      IterationOrderEmpty(order, table);
    } else {
      IterationOrderRest(order, table);
      ShowLines(table - {order[0]}, order[1..]);
      GatherRemove(table, EntryLineBag, order[0]);
    }
  }

  lemma ShowOrderIndependent(table: map<string, seq<string>>, order: seq<string>, other: seq<string>)
    requires IsIterationOrder(order, table) && IsIterationOrder(other, table)
    ensures multiset(Show(table, order)) == multiset(Show(table, other))
  {
    ShowLines(table, order);
    ShowLines(table, other);
  }

  // Reading a listing back.

  datatype Entry = Entry(artist: string, works: seq<string>)

  predicate IsHeader(line: string)
  {
    |line| >= 10 && line[..9] == "works by " && line[|line| - 1] == ':'
  }

  predicate IsWorkLine(line: string)
  {
    |line| >= 1 && line[0] == ' '
  }

  /** The titles of the work lines at the start of `lines`. */
  function LeadingTitles(lines: seq<string>): (titles: seq<string>)
    ensures |titles| <= |lines|
  {
    if lines != [] && IsWorkLine(lines[0]) then [lines[0][1..]] + LeadingTitles(lines[1..]) else []
  }

  /** Splits a listing into artists with their works; a listing that does not start with a header is malformed. */
  function Parse(lines: seq<string>): Option<seq<Entry>>
    decreases |lines|
  {
    if lines == [] then Some([])
    else if !IsHeader(lines[0]) then None
    else
      var titles := LeadingTitles(lines[1..]);
      match Parse(lines[1 + |titles|..])
      case None => None
      case Some(rest) => Some([Entry(lines[0][9..|lines[0]| - 1], titles)] + rest)
  }

  /** A header reads back as the artist's name and is never taken for a work line. */
  lemma HeaderIsRead(artist: string)
    ensures IsHeader(Header(artist)) && !IsWorkLine(Header(artist))
    ensures Header(artist)[9..|Header(artist)| - 1] == artist
  {
  }

  lemma {:induction false} LeadingTitlesOfWorkLines(works: seq<string>, rest: seq<string>)
    requires rest == [] || !IsWorkLine(rest[0])
    ensures LeadingTitles(WorkLines(works) + rest) == works
  {
    if works != [] {
      assert WorkLines(works) + rest == [WorkLine(works[0])] + (WorkLines(works[1..]) + rest);
      LeadingTitlesOfWorkLines(works[1..], rest);
      assert WorkLine(works[0])[1..] == works[0];
    } else {
      assert WorkLines(works) + rest == rest;
    }
  }

  /** One entry's lines in front of a well-formed listing parse to that entry followed by the listing's entries. */
  lemma ParseEntry(artist: string, works: seq<string>, later: seq<string>)
    requires later == [] || !IsWorkLine(later[0])
    requires Parse(later).Some?
    ensures Parse(EntryLines(artist, works) + later) == Some([Entry(artist, works)] + Parse(later).value)
  {
    var lines := EntryLines(artist, works) + later;
    EntryLinesSplit(artist, works, later);
    HeaderIsRead(artist);
    LeadingTitlesOfWorkLines(works, later);
    ParseHeader(lines, artist, works, later);
  }

  lemma EntryLinesSplit(artist: string, works: seq<string>, later: seq<string>)
    ensures var lines := EntryLines(artist, works) + later;
      && lines != [] && lines[0] == Header(artist)
      && lines[1..] == WorkLines(works) + later
      && lines[1 + |works|..] == later
  {
    SplitAfter(Header(artist), WorkLines(works), later);
  }

  lemma SplitAfter<T>(head: T, middle: seq<T>, tail: seq<T>)
    ensures var s := [head] + middle + tail;
      s[0] == head && s[1..] == middle + tail && s[1 + |middle|..] == tail
  {
  }

  /** How `Parse` reads a listing that starts with a header. */
  lemma ParseHeader(lines: seq<string>, artist: string, works: seq<string>, later: seq<string>)
    requires lines != [] && IsHeader(lines[0]) && lines[0][9..|lines[0]| - 1] == artist
    requires LeadingTitles(lines[1..]) == works && lines[1 + |works|..] == later
    requires Parse(later).Some?
    ensures Parse(lines) == Some([Entry(artist, works)] + Parse(later).value)
  {
  }

  /** Reading the listing back gives every artist, in the order listed, with their works. */
  lemma {:induction false} ShowRoundTrip(table: map<string, seq<string>>, order: seq<string>)
    requires IsIterationOrder(order, table)
    ensures Parse(Show(table, order)).Some?
    ensures |Parse(Show(table, order)).value| == |order|
    ensures forall i :: 0 <= i < |order| ==>
      Parse(Show(table, order)).value[i] == Entry(order[i], table[order[i]])
    decreases |order|
  {
    if order != [] {
      var artist := order[0];
      var rest := table - {artist};
      IterationOrderRest(order, table);
      var later := Show(rest, order[1..]);
      if later != [] {
        HeaderIsRead(order[1]);
      }
      ShowRoundTrip(rest, order[1..]);
      assert Show(table, order) == EntryLines(artist, table[artist]) + later;
      ParseEntry(artist, table[artist], later);
      forall i | 1 <= i < |order| ensures order[i] in rest && rest[order[i]] == table[order[i]] {
        assert order[i] != artist;
      }
    }
  }
}
