# Artist table: a Dafny model

The program builds a table of Renaissance artists and their works, a hash
map from an artist's name to a list of titles (`type Table = HashMap<String,
Vec<String>>`). Three `insert` calls fill it. An `assert_eq!` checks the first
work of Gesualdo. Then `sort_works` takes the table by mutable reference and
sorts every artist's list in place. A second function, `show`, takes the
table by shared reference and prints one header line `works by {artist}:` per
artist, followed by one line ` {work}` per work.

The model has five modules:

- `StringOrder` (`string_order.dfy`): `LexLe`, the ordering of Rust `String`s.
  Rust compares the UTF-8 bytes lexicographically. UTF-8 keeps code point
  order, so on Dafny strings this is lexicographic order on character codes.
  Upper case sorts before lower case, and a proper prefix sorts before its
  extensions. `LexLe` is proved to be a total order and to match the
  textbook "first differing character" definition.
- `WorkSort` (`work_sort.dfy`): what `Vec<String>::sort` does to one list.
  `Sort` is an insertion sort. Its contract says the result is sorted and is
  a permutation of the input. `SortedPermutationUnique` says only one list has
  both properties. So the result of Rust's stable sort is exactly `Sort`, whatever algorithm it uses.
- `Listing` (`listing.dfy`): `show`, as a function `Show` from the table and
  an iteration order to the lines it prints. `Parse` reads a listing back,
  and the round-trip lemma shows it recovers every artist with their works.
- `ArtistTable` (`artist_table.dfy`): the `Table` class with its map field.
  It also holds the constructor, `Insert`, the method `SortWorks` for
  `sort_works`, and `Lesson`, which follows the live statements of `main`.
- `Options` (`options.dfy`): `Option`, for the value `HashMap::insert` returns.

Order of the sorted lists. Comparison is by byte, so 'C' < 'M' < 'P' < 'T' <
'a' < 'm'. `sort_works` turns Gesualdo's list into `["Tenebrae Responsoria",
"many madrigals"]` and Caravaggio's into `["The Calling of St. Matthew", "The
Musicians"]`. Cellini's list is already in order and is left as it is:
`["Perseus with the head of Medusa", "a salt cellar"]`, because 'P' (0x50)
< 'a' (0x61); `SortCellini` proves it stays unchanged.

## Model

| member | source | states |
|---|---|---|
| `StringOrder.LexLe` | src/main.rs:70 | The `String` ordering `works.sort()` uses: decided at the first differing character by character code, or, when one string is a prefix of the other, the shorter first |
| `StringOrder.LexLeMatchesFirstDifference` | src/main.rs:70 | The comparison `sort` uses holds exactly when the first string is a prefix of the second, or when the strings agree up to a position where the first has the smaller character (both directions) |
| `StringOrder.LexLeReflexive` | src/main.rs:70 | Every title sorts no later than itself |
| `StringOrder.LexLeAntisymmetric` | src/main.rs:70 | Two titles that each sort no later than the other are the same string |
| `StringOrder.LexLeTransitive` | src/main.rs:70 | The string order is transitive |
| `StringOrder.LexLeTotal` | src/main.rs:70 | Any two titles are comparable, so sorting has a single answer |
| `StringOrder.LexLeAtDifference` | src/main.rs:70 | Strings that share a prefix and then differ are ordered strictly by the differing character |
| `WorkSort.InsertSorted` | src/main.rs:70 | Inserting a title into a sorted list gives a sorted list with that title added and nothing else changed |
| `WorkSort.Sort` | src/main.rs:70 | `works.sort()` leaves the list in non-decreasing order, with the same multiset of titles and the same length |
| `WorkSort.SortedPermutationUnique` | src/main.rs:70 | Two sorted lists with the same multiset of titles are equal |
| `WorkSort.SortIsUnique` | src/main.rs:70 | Every sorted permutation of a list equals `Sort` of it, so any correct sorting routine gives the same result |
| `WorkSort.SortFixesSorted` | src/main.rs:70 | Sorting a list that is already sorted leaves it unchanged |
| `WorkSort.SortIdempotent` | src/main.rs:70 | Sorting twice gives the same list as sorting once |
| `WorkSort.SortPair` | src/main.rs:70 | A two-title list is kept when its titles are in order and is swapped otherwise |
| `Listing.Header` | src/main.rs:55 | The header line printed for an artist is `works by {artist}:` |
| `Listing.WorkLine` | src/main.rs:58 | The line printed for a work is ` {work}`, the title after one space |
| `Listing.HeaderIsRead` | src/main.rs:55 | A header line starts with `works by ` and ends with `:`, the artist's name is what lies between, and it never starts with a space, so it cannot be taken for a work line |
| `Listing.Show` | src/main.rs:53-61 | Requires `IsIterationOrder`: the given order lists every artist of the table exactly once. The listing is, for each artist in that order, the artist's header followed by one work line per work in list order |
| `Listing.WorkLines` | src/main.rs:57-59 | The inner loop prints exactly one line ` {work}` per work, in list order |
| `Listing.IterationOrderRest` | src/main.rs:54 | Once the first artist is visited, the rest of the iteration visits each remaining artist exactly once |
| `Listing.ShowLineCount` | src/main.rs:53-61 | The listing has one line per artist plus one line per work, whatever the iteration order |
| `Listing.ShowLines` | src/main.rs:53-61 | The multiset of printed lines is the headers of all artists plus the work lines of all their works, whatever the iteration order |
| `Listing.ShowOrderIndependent` | src/main.rs:53-61 | Any two iteration orders print the same lines, possibly in a different order |
| `Listing.ParseEntry` | src/main.rs:54-59 | One artist's header and work lines, placed before a listing, read back as that artist and their works followed by the rest |
| `Listing.ShowRoundTrip` | src/main.rs:53-61 | Reading the printed lines back gives every artist in iteration order, each with their works unchanged in list order, so the sequence of `println!` texts loses nothing |
| `ArtistTable.Table.constructor` | src/main.rs:30 | `Table::new()` gives an empty table |
| `ArtistTable.Table.Insert` | src/main.rs:31-33 | `insert` maps the artist to the given list, leaves every other entry unchanged, and returns the list it replaced, if any |
| `ArtistTable.SortAll` | src/main.rs:68-72 | The table after `sort_works` has the same artists, and each list is sorted and has the same multiset of titles as before |
| `ArtistTable.SortAllIsUnique` | src/main.rs:68-72 | A table with the same artists whose lists are sorted permutations of the old ones can only be the table `sort_works` produces |
| `ArtistTable.SortAllFixesSorted` | src/main.rs:68-72 | `sort_works` on a table whose lists are all sorted changes nothing |
| `ArtistTable.SortAllIdempotent` | src/main.rs:68-72 | Running `sort_works` a second time changes nothing |
| `ArtistTable.SortWorks` | src/main.rs:68-72 | Visiting artists in any order, the method replaces each list by its sorted version. The keys are kept, each list is a sorted permutation of its old contents, and an already sorted table is unchanged |
| `ArtistTable.SortGesualdo` | src/main.rs:31 | Gesualdo's works sort to `["Tenebrae Responsoria", "many madrigals"]` because 'T' < 'm' |
| `ArtistTable.SortCaravaggio` | src/main.rs:32 | Caravaggio's works sort to `["The Calling of St. Matthew", "The Musicians"]` because 'C' < 'M' after "The " |
| `ArtistTable.SortCellini` | src/main.rs:33 | Cellini's works are already in order because 'P' < 'a' |
| `ArtistTable.SortUnsorted` | src/main.rs:30-33 | Sorting the table built by the three inserts gives the three sorted lists above |
| `ArtistTable.Lesson` | src/main.rs:30-75 | After the three inserts the table has exactly the keys Gesualdo, Caravaggio and Cellini, each with its two titles in written order. Gesualdo's first work is "many madrigals", which proves the `assert_eq!` cannot fail. After `sort_works` the table holds the sorted lists |

## Left out

- Console output. `println!` (including "Hello, world!") is not modelled. Each element of `Show`'s result is the text of one `println!` call, not one line of standard output.
- Listing.ShowLineCount and Listing.ShowRoundTrip: these hold of the sequence of `println!` calls, not of the printed text. A name or title that contains a newline prints as several lines. For example, the title `"x\nworks by y:"` prints the same text as a title `"x"` followed by an artist `y` with no works, so the printed text alone can be ambiguous.
- Hashing and the iteration order of `HashMap`. The order is unspecified. `SortWorks` takes an arbitrary pending artist at each step, and `Show` takes the order as a parameter that must list every artist exactly once.
- Ownership and borrowing are compile-time checks. They appear only in the modelling choices: `Show` is a function of the table's value, so it cannot change the table, and `SortWorks` may modify only the table object.
- The commented-out by-value `show` and the commented-out calls to it are not live code, so they are not modelled. The live code never calls `show`, so `Lesson` does not call `Show`.
- The sorting routine inside `Vec::sort` (a stable sort) is not modelled. Only its result is. Stability cannot be observed here, because equal strings are identical.
- UTF-8 encoding is not modelled. Strings are sequences of Unicode scalar values, and their code point order equals the byte order Rust uses.
- The panic of a failing `assert_eq!` is not modelled as an error path. The model proves the assertion holds, so that path cannot be reached.
