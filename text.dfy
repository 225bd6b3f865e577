/** The handful of Python `str` operations the modelled code relies on:
    `strip()`, `replace("\t", "    ")`, substring search, `split(sep)` and
    `lower()`. Strings are sequences of Unicode scalar values. */
module Text {
  import opened Wrappers

  /** Python's `str.isspace()` for a single character: the characters that
      `str.strip()` with no argument removes. */
  predicate IsSpace(c: char)
  {
    || c == ' '
    || ('\t' <= c <= '\r')
    || ('\U{1C}' <= c <= '\U{1F}')
    || c == '\U{85}' || c == '\U{A0}' || c == '\U{1680}'
    || ('\U{2000}' <= c <= '\U{200A}')
    || c == '\U{2028}' || c == '\U{2029}' || c == '\U{202F}'
    || c == '\U{205F}' || c == '\U{3000}'
  }

  /** Number of whitespace characters at the start of `s`. */
  function LeadingSpace(s: string): (n: nat)
    ensures n <= |s|
    ensures forall i :: 0 <= i < n ==> IsSpace(s[i])
    ensures n < |s| ==> !IsSpace(s[n])
  {
    if s != [] && IsSpace(s[0]) then 1 + LeadingSpace(s[1..]) else 0
  }

  /** Number of whitespace characters at the end of `s`. */
  function TrailingSpace(s: string): (n: nat)
    ensures n <= |s|
    ensures forall i :: |s| - n <= i < |s| ==> IsSpace(s[i])
    ensures n < |s| ==> !IsSpace(s[|s| - 1 - n])
  {
    if s != [] && IsSpace(s[|s| - 1]) then 1 + TrailingSpace(s[..|s| - 1]) else 0
  }

  /** Python's `s.strip()`: the longest infix of `s` that neither starts nor
      ends with whitespace, obtained by removing whitespace from both ends. */
  function Strip(s: string): (r: string)
    ensures LeadingSpace(s) + |r| <= |s|
    ensures r == s[LeadingSpace(s)..LeadingSpace(s) + |r|]
    ensures forall i :: 0 <= i < LeadingSpace(s) ==> IsSpace(s[i])
    ensures forall i :: LeadingSpace(s) + |r| <= i < |s| ==> IsSpace(s[i])
    ensures r != [] ==> !IsSpace(r[0]) && !IsSpace(r[|r| - 1])
    ensures r == [] <==> forall i :: 0 <= i < |s| ==> IsSpace(s[i])
  {
    var a := LeadingSpace(s);
    var t := s[a..];
    var r := t[..|t| - TrailingSpace(t)];
    assert r != [] ==> r[0] == s[a];
    r
  }

  /** A text that has no whitespace at either end. */
  predicate IsStripped(s: string)
  {
    s == [] || (!IsSpace(s[0]) && !IsSpace(s[|s| - 1]))
  }

  /** Stripping an already stripped text changes nothing. */
  lemma StripStripped(s: string)
    requires IsStripped(s)
    ensures Strip(s) == s
  {
    if s != [] {
      assert LeadingSpace(s) == 0;
      assert TrailingSpace(s) == 0;
    }
  }

  /** `strip()` is idempotent. */
  lemma StripIdempotent(s: string)
    ensures Strip(Strip(s)) == Strip(s)
  {
    StripStripped(Strip(s));
  }

  /** A line of stripped text followed by its newline strips back to it. */
  lemma StripNewline(s: string)
    requires s != [] && IsStripped(s)
    ensures Strip(s + "\n") == s
  {
    var t := s + "\n";
    assert LeadingSpace(t) == 0;
    assert t[..|t| - 1] == s;
    assert TrailingSpace(t[..|t| - 1]) == 0;
    assert TrailingSpace(t) == 1;
  }

  /** What one character becomes under `replace("\t", "    ")`. */
  function ExpandTab(c: char): string
  {
    if c == '\t' then "    " else [c]
  }

  /** Python's `s.replace("\t", "    ")`: every tab becomes four spaces,
      every other character is kept, in order. */
  function ReplaceTabs(s: string): (r: string)
    ensures '\t' !in r
    ensures |r| >= |s|
    decreases |s|
  {
    if s == [] then [] else ExpandTab(s[0]) + ReplaceTabs(s[1..])
  }

  lemma {:induction false} ReplaceTabsAppend(a: string, b: string)
    ensures ReplaceTabs(a + b) == ReplaceTabs(a) + ReplaceTabs(b)
    decreases |a|
  {
    if a != [] {
      assert (a + b)[1..] == a[1..] + b;
      ReplaceTabsAppend(a[1..], b);
    } else {
      assert a + b == b;
    }
  }

  /** A text without tabs is left as it is. */
  lemma {:induction false} ReplaceTabsWithoutTabs(s: string)
    requires '\t' !in s
    ensures ReplaceTabs(s) == s
    decreases |s|
  {
    if s != [] {
      assert s[0] in s;
      assert '\t' !in s[1..] by {
        forall i | 0 <= i < |s[1..]| ensures s[1..][i] != '\t' {
          assert s[1..][i] == s[i + 1];
        }
      }
      ReplaceTabsWithoutTabs(s[1..]);
      assert s == [s[0]] + s[1..];
    }
  }

  /** Replacing tabs keeps the first and the last character of a text whose
      ends are not whitespace, so a stripped text stays stripped. */
  lemma ReplaceTabsKeepsEnds(s: string)
    requires IsStripped(s)
    ensures IsStripped(ReplaceTabs(s))
    ensures s != [] ==> ReplaceTabs(s) != []
  {
    if s != [] {
      var n := |s|;
      assert s == s[..n - 1] + [s[n - 1]];
      ReplaceTabsAppend(s[..n - 1], [s[n - 1]]);
      assert ReplaceTabs([s[n - 1]]) == [s[n - 1]];
    }
  }

  /** `w` occurs in `s` at index `i`. */
  predicate IsAt(s: string, i: nat, w: string)
  {
    i + |w| <= |s| && s[i..i + |w|] == w
  }

  /** The first index at or after `from` where `w` occurs in `s`, if any
      (Python's `s.find(w, from)` with -1 as `None`). */
  function FindFrom(s: string, w: string, from: nat): (r: Option<nat>)
    ensures r.Some? ==> from <= r.value && IsAt(s, r.value, w)
    ensures r.Some? ==> forall j :: from <= j < r.value ==> !IsAt(s, j, w)
    ensures r.None? ==> forall j :: from <= j ==> !IsAt(s, j, w)
    decreases |s| + 1 - from
  {
    if from + |w| > |s| then None
    else if IsAt(s, from, w) then Some(from)
    else FindFrom(s, w, from + 1)
  }

  /** An occurrence inside an infix `s[a..b]` is an occurrence in `s`. */
  lemma IsAtInfix(s: string, a: nat, b: nat, k: nat, w: string)
    requires a <= b <= |s| && IsAt(s[a..b], k, w)
    ensures IsAt(s, a + k, w)
  {
    assert forall j :: 0 <= j < |w| ==> w[j] == s[a + k + j];
    assert s[a + k..a + k + |w|] == w;
  }

  /** A pattern with no space and no tab in it. */
  predicate NoBlank(w: string)
  {
    ' ' !in w && '\t' !in w
  }

  /** `Offset(s, i)` is where character `i` of `s` lands after tabs are
      replaced. */
  function Offset(s: string, i: nat): nat
    requires i <= |s|
  {
    |ReplaceTabs(s[..i])|
  }

  /** Offsets grow at least as fast as indices, and exactly as fast across
      a stretch without tabs. */
  lemma OffsetGrowth(s: string, i: nat, j: nat)
    requires i <= j <= |s|
    ensures Offset(s, j) >= Offset(s, i) + (j - i)
    ensures '\t' !in s[i..j] ==> Offset(s, j) == Offset(s, i) + (j - i)
  {
    assert s[..j] == s[..i] + s[i..j];
    ReplaceTabsAppend(s[..i], s[i..j]);
    if '\t' !in s[i..j] {
      ReplaceTabsWithoutTabs(s[i..j]);
    }
  }

  /** A blank-free prefix of `ReplaceTabs(s)` is already a prefix of `s`. */
  lemma {:induction false} PrefixBeforeReplace(s: string, w: string)
    requires NoBlank(w) && IsAt(ReplaceTabs(s), 0, w)
    ensures IsAt(s, 0, w)
    decreases |w|
  {
    if w != [] {
      assert s != [];
      assert ReplaceTabs(s)[0] == w[0];
      if s[0] == '\t' {
        assert false;
      }
      assert ReplaceTabs(s) == [s[0]] + ReplaceTabs(s[1..]);
      assert w[1..] == ReplaceTabs(s)[1..|w|] == ReplaceTabs(s[1..])[..|w| - 1];
      PrefixBeforeReplace(s[1..], w[1..]);
      assert s[..|w|] == [s[0]] + s[1..][..|w| - 1];
    }
  }

  /** Dropping the first character shifts every offset by that
      character's expansion. */
  lemma OffsetAfterFirst(s: string, i: nat)
    requires 0 < i <= |s|
    ensures Offset(s, i) == |ExpandTab(s[0])| + Offset(s[1..], i - 1)
  {
    assert s[..i][1..] == s[1..][..i - 1];
  }

  /** Every occurrence of a non-empty blank-free pattern in `ReplaceTabs(s)`
      comes from an occurrence in `s`, at the index that lands there. */
  lemma {:induction false} OccurrenceBeforeReplace(s: string, k: nat, w: string) returns (i: nat)
    requires NoBlank(w) && w != [] && IsAt(ReplaceTabs(s), k, w)
    ensures i <= |s| && IsAt(s, i, w) && Offset(s, i) == k
    decreases |s|
  {
    assert s != [];
    var e := ExpandTab(s[0]);
    var rest := ReplaceTabs(s[1..]);
    assert ReplaceTabs(s) == e + rest;
    if k >= |e| {
      assert rest[k - |e|..k - |e| + |w|] == ReplaceTabs(s)[k..k + |w|];
      var i' := OccurrenceBeforeReplace(s[1..], k - |e|, w);
      i := i' + 1;
      assert s[1..|s|] == s[1..];
      IsAtInfix(s, 1, |s|, i', w);
      OffsetAfterFirst(s, i);
    } else {
      assert w[0] == ReplaceTabs(s)[k] == e[k];
      if s[0] == '\t' {
        assert false;
      }
      PrefixBeforeReplace(s, w);
      i := 0;
      assert s[..0] == [];
    }
  }

  /** Python's `s.split(sep)`: the pieces between separators, always at
      least one, none containing the separator, and joining them back with
      `sep` gives `s`. */
  function Split(s: string, sep: char): (parts: seq<string>)
    ensures |parts| > 0
    ensures forall i :: 0 <= i < |parts| ==> sep !in parts[i]
    ensures Join(parts, sep) == s
    decreases |s|
  {
    if s == [] then [[]]
    else
      var rest := Split(s[1..], sep);
      if s[0] == sep then [[]] + rest
      else [[s[0]] + rest[0]] + rest[1..]
  }

  /** Python's `sep.join(parts)`. */
  function Join(parts: seq<string>, sep: char): string
    requires |parts| > 0
    decreases |parts|
  {
    if |parts| == 1 then parts[0] else parts[0] + [sep] + Join(parts[1..], sep)
  }

  /** Splitting what was joined gives back the pieces (when no piece holds
      the separator): `split` and `join` are inverse. */
  lemma {:induction false} SplitJoin(parts: seq<string>, sep: char)
    requires |parts| > 0
    requires forall i :: 0 <= i < |parts| ==> sep !in parts[i]
    ensures Split(Join(parts, sep), sep) == parts
    decreases |parts|, |parts[0]|
  {
    var s := Join(parts, sep);
    if parts[0] == [] {
      if |parts| > 1 {
        assert s == [sep] + Join(parts[1..], sep);
        assert s[1..] == Join(parts[1..], sep);
        SplitJoin(parts[1..], sep);
        assert parts == [[]] + parts[1..];
      }
    } else {
      var c := parts[0][0];
      var tail := [parts[0][1..]] + parts[1..];
      assert tail[1..] == parts[1..];
      assert Join(tail, sep) == s[1..] by {
        if |parts| == 1 {
        } else {
          assert s == parts[0] + [sep] + Join(parts[1..], sep);
          assert parts[0] == [c] + parts[0][1..];
        }
      }
      assert sep !in tail[0];
      forall i | 0 <= i < |tail| ensures sep !in tail[i] {
        if i > 0 { assert tail[i] == parts[i]; }
      }
      SplitJoin(tail, sep);
      assert s[0] == c;
      assert [c] + tail[0] == parts[0];
      assert parts == [parts[0]] + tail[1..];
    }
  }

  /** The last piece of `s.split(sep)`: a suffix of `s` holding no
      separator, and either all of `s` or preceded by a separator. */
  lemma {:induction false} SplitLast(s: string, sep: char)
    ensures var parts := Split(s, sep); var r := parts[|parts| - 1];
      && |r| <= |s|
      && r == s[|s| - |r|..]
      && (|r| == |s| || s[|s| - |r| - 1] == sep)
    decreases |s|
  {
    var parts := Split(s, sep);
    if s == [] {
      assert parts == [[]];
    } else {
      SplitLast(s[1..], sep);
      var rest := Split(s[1..], sep);
      var r := rest[|rest| - 1];
      if s[0] != sep && |rest| == 1 {
        assert rest[0] == Join(rest, sep) == s[1..];
        assert parts == [[s[0]] + s[1..]];
        assert [s[0]] + s[1..] == s;
      } else {
        LastPieceOfTail(s, sep);
        SuffixOfTail(s, |r|);
        assert |r| <= |s| && r == s[|s| - |r|..];
      }
    }
  }

  /** Unless `s[1..]` splits into one piece that the first character
      extends, `s` and `s[1..]` end in the same piece. */
  lemma LastPieceOfTail(s: string, sep: char)
    requires s != [] && (s[0] == sep || |Split(s[1..], sep)| > 1)
    ensures var parts := Split(s, sep); var rest := Split(s[1..], sep);
      parts[|parts| - 1] == rest[|rest| - 1]
  {
  }

  /** A suffix of `s[1..]` is the same suffix of `s`, with the same
      character in front of it. */
  lemma SuffixOfTail(s: string, n: nat)
    requires n < |s|
    ensures s[|s| - n..] == s[1..][|s| - 1 - n..]
    ensures n < |s| - 1 ==> s[|s| - n - 1] == s[1..][|s| - 1 - n - 1]
  {
  }

  /** A suffix without separator that is the whole text or follows a
      separator is exactly one thing: the last piece of the split. */
  lemma LastPieceUnique(s: string, sep: char, r1: string, r2: string)
    requires |r1| <= |s| && r1 == s[|s| - |r1|..] && sep !in r1 && (|r1| == |s| || s[|s| - |r1| - 1] == sep)
    requires |r2| <= |s| && r2 == s[|s| - |r2|..] && sep !in r2 && (|r2| == |s| || s[|s| - |r2| - 1] == sep)
    ensures r1 == r2
  {
  }

  /** Python's `c.lower()` on ASCII letters; other characters are kept. */
  function LowerChar(c: char): char
  {
    if 'A' <= c <= 'Z' then (c as int + 32) as char else c
  }

  /** `s.lower()` for the ASCII range (see README for why that suffices). */
  function ToLower(s: string): (r: string)
    ensures |r| == |s|
    ensures forall i :: 0 <= i < |s| ==> r[i] == LowerChar(s[i])
  {
    seq(|s|, i requires 0 <= i < |s| => LowerChar(s[i]))
  }

  /** A text without ASCII capitals is its own lower-case form. */
  lemma LowerOfLower(s: string)
    requires forall i :: 0 <= i < |s| ==> !('A' <= s[i] <= 'Z')
    ensures ToLower(s) == s
  {
  }
}
