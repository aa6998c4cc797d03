/**
  The ordering of Rust's `String` values, which `Vec<String>::sort` uses.

  Rust compares strings by their UTF-8 bytes, lexicographically. UTF-8 is
  designed so that byte order agrees with code point order, so on Dafny's
  `string` (a sequence of Unicode scalar values) the same order is the
  lexicographic order on character codes: upper case before lower case,
  and a proper prefix before any of its extensions.

  Dafny's own `<` on sequences is the proper-prefix test, not this order.
 */
module StringOrder {

  /** `a` sorts no later than `b`: decided at the first differing character,
      or by length when one is a prefix of the other. */
  predicate LexLe(a: string, b: string)
  {
    if a == [] then true
    else if b == [] then false
    else if a[0] != b[0] then a[0] < b[0]
    else LexLe(a[1..], b[1..])
  }

  /** The textbook definition, as a reference for `LexLe`: `a` is a prefix of
      `b`, or the two agree up to some position where `a` has the smaller character. */
  ghost predicate LexLeByFirstDifference(a: string, b: string)
  {
    a <= b ||
    exists i :: 0 <= i < |a| && i < |b| && a[..i] == b[..i] && a[i] < b[i]
  }

  lemma {:induction false} LexLeMatchesFirstDifference(a: string, b: string)
    ensures LexLe(a, b) <==> LexLeByFirstDifference(a, b)
  {
    if a == [] || b == [] {
    } else if a[0] != b[0] {
      FirstDifferenceAtHead(a, b);
    } else {
      LexLeMatchesFirstDifference(a[1..], b[1..]);
      if LexLeByFirstDifference(a[1..], b[1..]) {
        FirstDifferenceOfTails(a, b);
      }
      if LexLeByFirstDifference(a, b) {
        FirstDifferenceFromTails(a, b);
      }
    }
  }

  lemma FirstDifferenceAtHead(a: string, b: string)
    requires a != [] && b != [] && a[0] != b[0]
    ensures LexLeByFirstDifference(a, b) <==> a[0] < b[0]
  {
    if a[0] < b[0] {
      assert a[..0] == b[..0];
    }
  }

  lemma FirstDifferenceOfTails(a: string, b: string)
    requires a != [] && b != [] && a[0] == b[0]
    requires LexLeByFirstDifference(a[1..], b[1..])
    ensures LexLeByFirstDifference(a, b)
  {
    var a', b' := a[1..], b[1..];
    if a' <= b' {
      assert a == [a[0]] + a' && b == [b[0]] + b';
    } else {
      var i :| 0 <= i < |a'| && i < |b'| && a'[..i] == b'[..i] && a'[i] < b'[i];
      assert a[..i + 1] == [a[0]] + a'[..i];
      assert b[..i + 1] == [b[0]] + b'[..i];
      assert a[i + 1] == a'[i] && b[i + 1] == b'[i];
    }
  }

  lemma FirstDifferenceFromTails(a: string, b: string)
    requires a != [] && b != [] && a[0] == b[0]
    requires LexLeByFirstDifference(a, b)
    ensures LexLeByFirstDifference(a[1..], b[1..])
  {
    var a', b' := a[1..], b[1..];
    if a <= b {
      assert a' <= b';
    } else {
      var i :| 0 <= i < |a| && i < |b| && a[..i] == b[..i] && a[i] < b[i];
      assert a'[..i - 1] == a[..i][1..] == b[..i][1..] == b'[..i - 1];
      assert a'[i - 1] == a[i] && b'[i - 1] == b[i];
    }
  }

  lemma {:induction false} LexLeReflexive(a: string)
    ensures LexLe(a, a)
  {
    if a != [] {
      LexLeReflexive(a[1..]);
    }
  }

  lemma {:induction false} LexLeAntisymmetric(a: string, b: string)
    requires LexLe(a, b) && LexLe(b, a)
    ensures a == b
  {
    if a != [] && b != [] {
      LexLeAntisymmetric(a[1..], b[1..]);
      assert a == [a[0]] + a[1..] && b == [b[0]] + b[1..];
    }
  }

  lemma {:induction false} LexLeTransitive(a: string, b: string, c: string)
    requires LexLe(a, b) && LexLe(b, c)
    ensures LexLe(a, c)
  {
    if a != [] && b != [] && c != [] && a[0] == b[0] == c[0] {
      LexLeTransitive(a[1..], b[1..], c[1..]);
    }
  }

  lemma {:induction false} LexLeTotal(a: string, b: string)
    ensures LexLe(a, b) || LexLe(b, a)
  {
    if a != [] && b != [] && a[0] == b[0] {
      LexLeTotal(a[1..], b[1..]);
    }
  }

  /** Two strings that share the first `i` characters and then differ are
      ordered by that character, in one direction only. */
  lemma {:induction false} LexLeAtDifference(a: string, b: string, i: nat)
    requires i < |a| && i < |b| && a[..i] == b[..i] && a[i] < b[i]
    ensures LexLe(a, b) && !LexLe(b, a)
  {
    if i > 0 {
      assert a[0] == a[..i][0] == b[..i][0] == b[0];
      assert a[1..][..i - 1] == a[..i][1..] == b[..i][1..] == b[1..][..i - 1];
      LexLeAtDifference(a[1..], b[1..], i - 1);
    }
  }
}
