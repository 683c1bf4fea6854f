/**
 * The avatar initials shown in the top bar: the user's name split on single
 * spaces, the first character of each piece, joined and upper-cased, with
 * "U" when that leaves nothing (or there is no name). Letters are ASCII.
 */
module Topbar {
  import opened Common

  /** The pieces of `c` followed by text split into `x`: a new empty piece
      when `c` is the separator, otherwise `c` joins the first piece. */
  function PiecesCons(isSep: bool, c: char, x: seq<string>): seq<string>
    requires |x| >= 1
  {
    if isSep then [""] + x else [[c] + x[0]] + x[1..]
  }

  /** `s.split(sep)`: the pieces between occurrences of `sep`; consecutive
      separators give empty pieces, and "" splits into [""]. */
  function Split(s: string, sep: char): (pieces: seq<string>)
    ensures |pieces| >= 1
    ensures forall p :: p in pieces ==> sep !in p
  {
    if s == [] then [""] else PiecesCons(s[0] == sep, s[0], Split(s[1..], sep))
  }

  /** `pieces.join(sep)`. */
  function Join(pieces: seq<string>, sep: char): string
    requires |pieces| >= 1
  {
    if |pieces| == 1 then pieces[0] else pieces[0] + [sep] + Join(pieces[1..], sep)
  }

  /** Joining the pieces with the separator gives the name back. */
  lemma {:induction false} JoinSplit(s: string, sep: char)
    ensures Join(Split(s, sep), sep) == s
  {
    if s != [] {
      var rest := Split(s[1..], sep);
      JoinSplit(s[1..], sep);
      if s[0] != sep {
        if |rest| > 1 {
          assert Split(s, sep)[1..] == rest[1..];
        }
      } else {
        assert Split(s, sep)[1..] == rest;
      }
    }
  }

  /** `.map((n) => n[0]).join("")`: the first character of each piece; an
      empty piece gives `undefined`, which `join` renders as nothing. */
  function FirstChars(pieces: seq<string>): (r: string)
    ensures |r| <= |pieces|
  {
    if pieces == [] then ""
    else (if pieces[0] == "" then "" else [pieces[0][0]]) + FirstChars(pieces[1..])
  }

  /** Each initial is the first character of some non-empty piece. */
  lemma {:induction false} FirstCharsFrom(pieces: seq<string>)
    ensures forall i :: 0 <= i < |FirstChars(pieces)| ==>
              exists p :: p in pieces && p != "" && FirstChars(pieces)[i] == p[0]
  {
    if pieces != [] {
      var head := if pieces[0] == "" then "" else [pieces[0][0]];
      var rest := FirstChars(pieces[1..]);
      var r := FirstChars(pieces);
      FirstCharsFrom(pieces[1..]);
      assert r == head + rest;
      forall i | 0 <= i < |r|
        ensures exists p :: p in pieces && p != "" && r[i] == p[0]
      {
        if i < |head| {
          assert r[i] == pieces[0][0] && pieces[0] in pieces;
        } else {
          assert r[i] == rest[i - |head|];
          var p :| p in pieces[1..] && p != "" && rest[i - |head|] == p[0];
          assert p in pieces;
        }
      }
    } else {
      assert FirstChars(pieces) == "";
    }
  }

  function UpperChar(c: char): char {
    if 'a' <= c <= 'z' then (c as int - 'a' as int + 'A' as int) as char else c
  }

  /** `toUpperCase()` on ASCII letters. */
  function Upper(s: string): (r: string)
    ensures |r| == |s|
    ensures forall i :: 0 <= i < |s| ==> r[i] == UpperChar(s[i])
  {
    if s == [] then [] else [UpperChar(s[0])] + Upper(s[1..])
  }

  /** The initials of an optional name. The fallback "U" is taken for a
      missing name and for a name made only of spaces (the empty string
      included); any other name gives its upper-cased first characters, of
      which there is at least one. */
  function Initials(name: Option<string>): (r: string)
    ensures name.None? ==> r == "U"
    ensures name.Some? && AllSeparators(name.value, ' ') ==> r == "U"
    ensures name.Some? && !AllSeparators(name.value, ' ') ==>
              r == Upper(FirstChars(Split(name.value, ' '))) && r != ""
  {
    if name.None? then "U"
    else
      var pieces := Split(name.value, ' ');
      FirstCharsEmpty(pieces);
      SplitAllEmpty(name.value, ' ');
      var joined := Upper(FirstChars(pieces));
      if joined == "" then "U" else joined
  }

  predicate IsLower(c: char) {
    'a' <= c <= 'z'
  }

  /** The joined first characters are empty exactly when every piece is. */
  lemma {:induction false} FirstCharsEmpty(pieces: seq<string>)
    ensures FirstChars(pieces) == "" <==> AllEmpty(pieces)
  {
    if pieces != [] {
      FirstCharsEmpty(pieces[1..]);
      if pieces[0] == "" {
        assert FirstChars(pieces) == FirstChars(pieces[1..]);
        assert forall p :: p in pieces ==> p == pieces[0] || p in pieces[1..];
        assert forall p :: p in pieces[1..] ==> p in pieces;
      } else {
        assert FirstChars(pieces) == [pieces[0][0]] + FirstChars(pieces[1..]);
        assert pieces[0] in pieces;
      }
    }
  }

  predicate AllEmpty(pieces: seq<string>) {
    forall p :: p in pieces ==> p == ""
  }

  predicate AllSeparators(s: string, sep: char) {
    forall i :: 0 <= i < |s| ==> s[i] == sep
  }

  /** Every piece of a split is empty exactly when the name is all separators. */
  lemma {:induction false} SplitAllEmpty(s: string, sep: char)
    ensures AllEmpty(Split(s, sep)) <==> AllSeparators(s, sep)
  {
    if s != [] {
      var tail := s[1..];
      SplitAllEmpty(tail, sep);
      var rest := Split(tail, sep);
      var pieces := Split(s, sep);
      if s[0] == sep {
        assert pieces == [""] + rest;
        assert AllEmpty(pieces) <==> AllEmpty(rest) by {
          assert forall p :: p in pieces ==> p == "" || p in rest;
          assert forall p :: p in rest ==> p in pieces;
        }
        assert AllSeparators(s, sep) <==> AllSeparators(tail, sep) by {
          if AllSeparators(tail, sep) {
            forall i | 0 <= i < |s| ensures s[i] == sep {
              if i > 0 { assert s[i] == tail[i - 1]; }
            }
          }
          if AllSeparators(s, sep) {
            forall i | 0 <= i < |tail| ensures tail[i] == sep {
              assert tail[i] == s[i + 1];
            }
          }
        }
      } else {
        assert pieces[0] != "";
        assert pieces[0] in pieces;
      }
    }
  }

  /** A name without the separator is a single piece. */
  lemma {:induction false} SplitNoSeparator(s: string, sep: char)
    requires sep !in s
    ensures Split(s, sep) == [s]
  {
    if s != [] {
      assert s[0] in s;
      assert forall c :: c in s[1..] ==> c in s;
      SplitNoSeparator(s[1..], sep);
      assert [s[0]] + s[1..] == s;
    }
  }

  /** The piece before the first separator, then the split of the rest. */
  lemma {:induction false} SplitAtSeparator(a: string, sep: char, b: string)
    requires sep !in a
    ensures Split(a + [sep] + b, sep) == [a] + Split(b, sep)
  {
    if a != [] {
      assert a[0] in a;
      assert forall c :: c in a[1..] ==> c in a;
      SplitAtSeparator(a[1..], sep, b);
      assert (a + [sep] + b)[0] == a[0];
      assert (a + [sep] + b)[1..] == a[1..] + [sep] + b;
      assert [a[0]] + a[1..] == a;
    } else {
      assert (a + [sep] + b)[1..] == b;
    }
  }

  /** Splitting at one separator splits the two sides independently. */
  lemma {:induction false} SplitAppend(a: string, sep: char, b: string)
    ensures Split(a + [sep] + b, sep) == Split(a, sep) + Split(b, sep)
  {
    var s := a + [sep] + b;
    if a == [] {
      assert s == [sep] + b;
    } else {
      var t := a[1..] + [sep] + b;
      SplitAppend(a[1..], sep, b);
      assert s[0] == a[0] && s[1..] == t;
      PiecesAppend(a[0] == sep, a[0], Split(a[1..], sep), Split(b, sep));
    }
  }

  lemma PiecesAppend(isSep: bool, c: char, x: seq<string>, y: seq<string>)
    requires |x| >= 1
    ensures PiecesCons(isSep, c, x + y) == PiecesCons(isSep, c, x) + y
  {
    if !isSep {
      assert (x + y)[0] == x[0] && (x + y)[1..] == x[1..] + y;
    }
  }

  /** Initials are at most one character per space-separated piece (or the
      single "U"), and contain no lower-case letter. */
  lemma InitialsShape(name: string)
    ensures |Initials(Some(name))| <= |Split(name, ' ')|
    ensures forall i :: 0 <= i < |Initials(Some(name))| ==> !IsLower(Initials(Some(name))[i])
  {
  }

  lemma {:induction false} FirstCharsAppend(x: seq<string>, y: seq<string>)
    ensures FirstChars(x + y) == FirstChars(x) + FirstChars(y)
  {
    if x != [] {
      FirstCharsAppend(x[1..], y);
      assert (x + y)[1..] == x[1..] + y;
    } else {
      assert x + y == y;
    }
  }

  /** Consecutive spaces contribute nothing: a doubled space anywhere in
      the name gives the same initials as a single one ("Ada  Lovelace" and
      "Ada Lovelace" both give "AL"). */
  lemma DoubledSpaceContributesNothing(first: string, rest: string)
    ensures Initials(Some(first + "  " + rest)) == Initials(Some(first + " " + rest))
  {
    var sep := ' ';
    var f, r := Split(first, sep), Split(rest, sep);
    var doubled, single := first + "  " + rest, first + " " + rest;
    assert Split(doubled, sep) == f + ([""] + r) by {
      assert doubled == first + [sep] + ([sep] + rest);
      assert [sep] + rest == [] + [sep] + rest;
      SplitAppend([], sep, rest);
      SplitAppend(first, sep, [sep] + rest);
    }
    assert Split(single, sep) == f + r by {
      assert single == first + [sep] + rest;
      SplitAppend(first, sep, rest);
    }
    EmptyPieceContributesNothing(f, r);
  }

  lemma EmptyPieceContributesNothing(x: seq<string>, y: seq<string>)
    ensures FirstChars(x + ([""] + y)) == FirstChars(x + y)
  {
    FirstCharsAppend(x, [""] + y);
    FirstCharsAppend([""], y);
    FirstCharsAppend(x, y);
    assert FirstChars([""]) == "";
  }
}
