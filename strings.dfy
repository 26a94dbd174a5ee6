/** The JavaScript string built-ins the components rely on, written out: `split` on a
    one-character separator, `join`, `includes`, an ASCII `toLowerCase` and `trim`. */
module Strings {
  import Wrappers

  /** A JavaScript value that is truthy as a string: present and non-empty. */
  predicate Truthy(s: Wrappers.Option<string>)
  {
    s.Some? && s.value != ""
  }

  /** The parts glued together in order (`parts.join("")`). */
  function Concat(parts: seq<string>): string
  {
    if parts == [] then "" else parts[0] + Concat(parts[1..])
  }

  lemma {:induction false} ConcatSnoc(parts: seq<string>, last: string)
    ensures Concat(parts + [last]) == Concat(parts) + last
  {
    if parts == [] {
      assert [] + [last] == [last];
    } else {
      assert (parts + [last])[1..] == parts[1..] + [last];
      ConcatSnoc(parts[1..], last);
    }
  }

  /** `parts.join(sep)`: the separator between neighbours, none at either end. */
  function Join(parts: seq<string>, sep: string): string
  {
    if |parts| == 0 then ""
    else if |parts| == 1 then parts[0]
    else parts[0] + sep + Join(parts[1..], sep)
  }

  /** `s.split(sep)` for a one-character separator: the texts between consecutive
      separators, in order. */
  function Split(s: string, sep: char): (parts: seq<string>)
    ensures |parts| >= 1
    ensures forall p :: p in parts ==> sep !in p
  {
    if s == [] then [""]
    else
      var rest := Split(s[1..], sep);
      if s[0] == sep then [""] + rest
      else [[s[0]] + rest[0]] + rest[1..]
  }

  /** There is one part more than there are separators in the text. */
  lemma {:induction false} SplitCount(s: string, sep: char)
    ensures |Split(s, sep)| == multiset(s)[sep] + 1
  {
    if s != [] {
      SplitCount(s[1..], sep);
      assert s == [s[0]] + s[1..];
      assert multiset(s) == multiset{s[0]} + multiset(s[1..]);
    }
  }

  /** Joining the parts of a split with the separator gives the text back. */
  lemma {:induction false} SplitThenJoin(s: string, sep: char)
    ensures Join(Split(s, sep), [sep]) == s
  {
    if s != [] {
      var rest := Split(s[1..], sep);
      SplitThenJoin(s[1..], sep);
      assert Join(rest, [sep]) == s[1..];
      if s[0] == sep {
        var parts := [""] + rest;
        assert Split(s, sep) == parts;
        assert parts[1..] == rest;
        assert Join(parts, [sep]) == "" + [sep] + Join(rest, [sep]);
      } else {
        var parts := [[s[0]] + rest[0]] + rest[1..];
        assert Split(s, sep) == parts;
        if |rest| == 1 {
          assert Join(parts, [sep]) == [s[0]] + rest[0];
        } else {
          assert parts[1..] == rest[1..];
          assert Join(rest, [sep]) == rest[0] + [sep] + Join(rest[1..], [sep]);
          assert Join(parts, [sep]) == [s[0]] + rest[0] + [sep] + Join(rest[1..], [sep]);
        }
      }
    }
  }

  /** `parts.pop()` on a non-empty list. */
  function Last(parts: seq<string>): string
    requires parts != []
  {
    parts[|parts| - 1]
  }

  /** `raw` is the text after the last `sep` in `s`, or all of `s` when there is none. */
  ghost predicate AfterLast(s: string, sep: char, raw: string)
  {
    && sep !in raw && |raw| <= |s| && s[|s| - |raw|..] == raw
    && (if sep in s then s[|s| - |raw| - 1] == sep else raw == s)
  }

  /** The last part of a split, when one more character is put in front of the text. */
  lemma SplitLastCons(c: char, t: string, sep: char)
    ensures Last(Split([c] + t, sep))
         == if c != sep && sep !in t then [c] + Last(Split(t, sep)) else Last(Split(t, sep))
  {
    var s := [c] + t;
    assert s[1..] == t && s[0] == c;
    SplitCount(t, sep);
    if c != sep {
      if sep !in t {
        assert multiset(t)[sep] == 0;
      } else {
        assert sep in multiset(t);
      }
    }
  }

  /** Putting a character in front of a text moves the text after its last separator only
      when the character is the first of a text without separators. */
  lemma AfterLastCons(c: char, t: string, sep: char, raw: string)
    requires AfterLast(t, sep, raw)
    ensures AfterLast([c] + t, sep, if c != sep && sep !in t then [c] + raw else raw)
  {
    var s := [c] + t;
    assert s[1..] == t;
    assert s[|s| - |raw|..] == t[|t| - |raw|..];
    if c != sep && sep !in t {
      assert raw == t && [c] + raw == s;
    } else if sep in t {
      assert s[|s| - |raw| - 1] == t[|t| - |raw| - 1];
    } else {
      assert raw == t && s[|s| - |raw| - 1] == c;
    }
  }

  /** The last part of a split is the text after the last separator, or the whole text when
      there is none. */
  lemma {:induction false} SplitLastAfterLast(s: string, sep: char)
    ensures AfterLast(s, sep, Last(Split(s, sep)))
  {
    if s != [] {
      var c, t := s[0], s[1..];
      assert s == [c] + t;
      SplitLastAfterLast(t, sep);
      AfterLastCons(c, t, sep, Last(Split(t, sep)));
      SplitLastCons(c, t, sep);
    }
  }

  /** A separator-free word followed by the separator splits off as one part. */
  lemma {:induction false} SplitAfterWord(w: string, sep: char, t: string)
    requires sep !in w
    ensures Split(w + [sep] + t, sep) == [w] + Split(t, sep)
  {
    if w == [] {
      assert w + [sep] + t == [sep] + t;
      assert ([sep] + t)[1..] == t;
    } else {
      assert (w + [sep] + t)[1..] == w[1..] + [sep] + t;
      SplitAfterWord(w[1..], sep, t);
      assert [w[0]] + w[1..] == w;
    }
  }

  lemma {:induction false} SplitWord(w: string, sep: char)
    requires sep !in w
    ensures Split(w, sep) == [w]
  {
    if w != [] {
      SplitWord(w[1..], sep);
      assert [w[0]] + w[1..] == w;
    }
  }

  /** Splitting a join of separator-free parts gives the parts back. */
  lemma {:induction false} JoinThenSplit(parts: seq<string>, sep: char)
    requires |parts| >= 1
    requires forall p :: p in parts ==> sep !in p
    ensures Split(Join(parts, [sep]), sep) == parts
  {
    if |parts| == 1 {
      SplitWord(parts[0], sep);
    } else {
      JoinThenSplit(parts[1..], sep);
      assert parts[0] in parts;
      SplitAfterWord(parts[0], sep, Join(parts[1..], [sep]));
      assert parts[0] + [sep] + Join(parts[1..], [sep]) == Join(parts, [sep]);
      assert [parts[0]] + parts[1..] == parts;
    }
  }

  /** `s` occurs in `hay` starting at position `i`. */
  predicate OccursAt(needle: string, hay: string, i: int)
  {
    0 <= i && i + |needle| <= |hay| && hay[i..i + |needle|] == needle
  }

  /** `hay.includes(needle)`, by trying every start position in turn. */
  function Includes(hay: string, needle: string): (b: bool)
    ensures b <==> exists i :: OccursAt(needle, hay, i)
  {
    if |needle| <= |hay| && hay[..|needle|] == needle then
      assert OccursAt(needle, hay, 0);
      true
    else if hay == [] then
      false
    else
      var b := Includes(hay[1..], needle);
      if b then
        assert exists i :: OccursAt(needle, hay, i) by {
          var j :| OccursAt(needle, hay[1..], j);
          assert hay[1..][j..j + |needle|] == hay[j + 1..j + 1 + |needle|];
          assert OccursAt(needle, hay, j + 1);
        }
        b
      else
        assert forall i :: OccursAt(needle, hay, i) ==> OccursAt(needle, hay[1..], i - 1) by {
          forall i | OccursAt(needle, hay, i)
            ensures OccursAt(needle, hay[1..], i - 1)
          {
            assert i != 0;
            assert hay[1..][i - 1..i - 1 + |needle|] == hay[i..i + |needle|];
          }
        }
        b
  }

  /** `toLowerCase` on the ASCII letters; every other character is kept. */
  function LowerChar(c: char): char
  {
    if 'A' <= c <= 'Z' then (c as int + 32) as char else c
  }

  function Lower(s: string): (r: string)
    ensures |r| == |s|
  {
    seq(|s|, i requires 0 <= i < |s| => LowerChar(s[i]))
  }

  /** The characters `String.prototype.trim` removes: the ECMAScript WhiteSpace set
      (tab, vertical tab, form feed, no-break space, byte order mark and the Unicode
      space separators) and the LineTerminator set. */
  predicate IsJsWhitespace(c: char)
  {
    c in JsWhitespace
  }

  const JsWhitespace: set<char> := {
    '\t', '\U{000B}', '\U{000C}', ' ', '\U{00A0}', '\U{FEFF}', '\U{1680}',
    '\U{2000}', '\U{2001}', '\U{2002}', '\U{2003}', '\U{2004}', '\U{2005}',
    '\U{2006}', '\U{2007}', '\U{2008}', '\U{2009}', '\U{200A}',
    '\U{202F}', '\U{205F}', '\U{3000}',
    '\n', '\r', '\U{2028}', '\U{2029}'
  }

  /** Every character of `s` from `lo` up to (not including) `hi` is whitespace. */
  ghost predicate WhitespaceBetween(s: string, lo: int, hi: int)
  {
    forall k :: lo <= k < hi && 0 <= k < |s| ==> IsJsWhitespace(s[k])
  }

  /** The first index at or after `from` that is not whitespace, `|s|` when there is none. */
  function SkipLeading(s: string, from: nat): (i: nat)
    requires from <= |s|
    ensures from <= i <= |s| && WhitespaceBetween(s, from, i)
    ensures i < |s| ==> !IsJsWhitespace(s[i])
    decreases |s| - from
  {
    if from < |s| && IsJsWhitespace(s[from]) then SkipLeading(s, from + 1) else from
  }

  /** The end of `s[lo..end]` once its trailing whitespace is dropped. */
  function SkipTrailing(s: string, lo: nat, end: nat): (j: nat)
    requires lo <= end <= |s|
    ensures lo <= j <= end && WhitespaceBetween(s, j, end)
    ensures lo < j ==> !IsJsWhitespace(s[j - 1])
    decreases end
  {
    if lo < end && IsJsWhitespace(s[end - 1]) then SkipTrailing(s, lo, end - 1) else end
  }

  /** `r` is the infix of `s` at `i` and everything around it is whitespace. */
  ghost predicate TrimmedAt(s: string, r: string, i: int)
  {
    0 <= i <= |s| - |r| && r == s[i..i + |r|] && WhitespaceBetween(s, 0, i) && WhitespaceBetween(s, i + |r|, |s|)
  }

  /** `s.trim()`: the infix of `s` left after removing the whitespace at both ends. */
  function Trim(s: string): (r: string)
    ensures TrimmedAt(s, r, SkipLeading(s, 0))
    ensures r == [] || (!IsJsWhitespace(r[0]) && !IsJsWhitespace(r[|r| - 1]))
  {
    var i := SkipLeading(s, 0);
    var j := SkipTrailing(s, i, |s|);
    s[i..j]
  }

  /** A text trims to nothing exactly when it is all whitespace. */
  lemma TrimBlank(s: string)
    ensures Trim(s) == [] <==> WhitespaceBetween(s, 0, |s|)
  {
    var i := SkipLeading(s, 0);
    var r := Trim(s);
    if r != [] {
      assert r[0] == s[i];
    }
  }

  /** Lower-casing twice changes nothing more than lower-casing once. */
  lemma LowerIdempotent(s: string)
    ensures Lower(Lower(s)) == Lower(s)
  {
    assert forall i :: 0 <= i < |s| ==> LowerChar(LowerChar(s[i])) == LowerChar(s[i]);
  }

  /** `String(n)` for a natural number: its decimal digits, most significant first. */
  function NatToString(n: nat): (s: string)
    ensures |s| >= 1
    ensures forall i :: 0 <= i < |s| ==> '0' <= s[i] <= '9'
  {
    if n < 10 then [('0' as int + n) as char]
    else NatToString(n / 10) + [('0' as int + n % 10) as char]
  }

  function Pow10(k: nat): (p: nat)
    ensures p >= 1
  {
    if k == 0 then 1 else 10 * Pow10(k - 1)
  }

  /** A positive number has exactly as many decimal digits as `10^(d-1) <= n < 10^d` says. */
  lemma {:induction false} NatToStringLength(n: nat)
    requires n > 0
    ensures Pow10(|NatToString(n)| - 1) <= n < Pow10(|NatToString(n)|)
  {
    if n >= 10 {
      NatToStringLength(n / 10);
      var d := |NatToString(n / 10)|;
      assert |NatToString(n)| == d + 1;
      assert Pow10(d) == 10 * Pow10(d - 1);
      assert Pow10(d + 1) == 10 * Pow10(d);
    }
  }
}
