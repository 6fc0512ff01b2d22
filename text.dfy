/** The string operations the repository layer applies to struct tags and
    enum texts: strings.Split with a one-character separator,
    strings.TrimSpace, strings.ToLower and strings.ReplaceAll(s, c, ""). */
module Text {

  /** unicode.IsSpace: the ASCII white space characters and the Unicode
      space separators. */
  predicate IsSpace(c: char) {
    || c == ' ' || c == '\t' || c == '\n' || c == '\U{B}' || c == '\U{C}' || c == '\r'
    || c == '\U{85}' || c == '\U{A0}' || c == '\U{1680}'
    || ('\U{2000}' <= c <= '\U{200A}')
    || c == '\U{2028}' || c == '\U{2029}' || c == '\U{202F}' || c == '\U{205F}' || c == '\U{3000}'
  }

  // ---------------------------------------------------------------------
  // strings.Split(s, string(sep))

  /** The components of `s` between occurrences of `sep`. Like Go, the empty
      string splits into one empty component. */
  function Split(s: string, sep: char): (parts: seq<string>)
    ensures |parts| >= 1
    ensures forall k :: 0 <= k < |parts| ==> sep !in parts[k]
    decreases |s|
  {
    if |s| == 0 then [""]
    else
      var rest := Split(s[1..], sep);
      if s[0] == sep then [""] + rest
      else [[s[0]] + rest[0]] + rest[1..]
  }

  /** strings.Join(parts, string(sep)). */
  function Join(parts: seq<string>, sep: char): string
    requires |parts| >= 1
    decreases |parts|
  {
    if |parts| == 1 then parts[0] else parts[0] + [sep] + Join(parts[1..], sep)
  }

  /** Joining the components back with the separator gives the input. */
  lemma {:induction false} JoinSplit(s: string, sep: char)
    ensures Join(Split(s, sep), sep) == s
    decreases |s|
  {
    if |s| > 0 {
      var rest := Split(s[1..], sep);
      JoinSplit(s[1..], sep);
      if s[0] == sep {
        assert Split(s, sep) == [""] + rest;
        assert ([""] + rest)[1..] == rest;
        assert [s[0]] + s[1..] == s;
      } else if |rest| == 1 {
        assert Split(s, sep) == [[s[0]] + rest[0]];
        assert [s[0]] + s[1..] == s;
      } else {
        var parts := Split(s, sep);
        assert parts == [[s[0]] + rest[0]] + rest[1..];
        assert parts[1..] == rest[1..];
        assert Join(rest, sep) == rest[0] + [sep] + Join(rest[1..], sep);
        assert [s[0]] + s[1..] == s;
      }
    }
  }

  /** Splitting a separator-free word followed by a separator. */
  lemma {:induction false} SplitAfterWord(w: string, sep: char, t: string)
    requires sep !in w
    ensures Split(w + [sep] + t, sep) == [w] + Split(t, sep)
    decreases |w|
  {
    if |w| == 0 {
      assert w + [sep] + t == [sep] + t;
      assert ([sep] + t)[1..] == t;
    } else {
      SplitAfterWord(w[1..], sep, t);
      assert (w + [sep] + t)[1..] == w[1..] + [sep] + t;
      assert [w[0]] + w[1..] == w;
    }
  }

  /** A separator-free word is its own single component. */
  lemma {:induction false} SplitWord(w: string, sep: char)
    requires sep !in w
    ensures Split(w, sep) == [w]
    decreases |w|
  {
    if |w| > 0 {
      SplitWord(w[1..], sep);
      assert [w[0]] + w[1..] == w;
    }
  }

  /** Splitting a join of separator-free components gives the components. */
  lemma {:induction false} SplitJoin(parts: seq<string>, sep: char)
    requires |parts| >= 1
    requires forall k :: 0 <= k < |parts| ==> sep !in parts[k]
    ensures Split(Join(parts, sep), sep) == parts
    decreases |parts|
  {
    if |parts| == 1 {
      SplitWord(parts[0], sep);
    } else {
      SplitJoin(parts[1..], sep);
      SplitAfterWord(parts[0], sep, Join(parts[1..], sep));
      assert [parts[0]] + parts[1..] == parts;
    }
  }

  /** The first component, strings.Split(s, sep)[0]: the longest prefix of
      `s` free of `sep`. */
  function Head(s: string, sep: char): (h: string)
    ensures h <= s && sep !in h
    ensures |h| < |s| ==> s[|h|] == sep
    decreases |s|
  {
    if |s| == 0 || s[0] == sep then ""
    else [s[0]] + Head(s[1..], sep)
  }

  /** Head is the first component Split produces. */
  lemma {:induction false} HeadIsFirstComponent(s: string, sep: char)
    ensures Split(s, sep)[0] == Head(s, sep)
    decreases |s|
  {
    if |s| > 0 && s[0] != sep {
      HeadIsFirstComponent(s[1..], sep);
    }
  }

  // ---------------------------------------------------------------------
  // strings.TrimSpace

  /** `s` without its leading and trailing white space. */
  function TrimSpace(s: string): (r: string)
    ensures |r| == 0 || (!IsSpace(r[0]) && !IsSpace(r[|r| - 1]))
    ensures |r| <= |s|
    decreases |s|
  {
    if |s| > 0 && IsSpace(s[0]) then TrimSpace(s[1..])
    else if |s| > 0 && IsSpace(s[|s| - 1]) then TrimSpace(s[..|s| - 1])
    else s
  }

  /** TrimSpace removes exactly a run of white space at each end. */
  lemma {:induction false} TrimSpaceBounds(s: string) returns (i: nat, j: nat)
    ensures i <= j <= |s| && TrimSpace(s) == s[i..j]
    ensures forall k :: 0 <= k < i ==> IsSpace(s[k])
    ensures forall k :: j <= k < |s| ==> IsSpace(s[k])
    decreases |s|
  {
    if |s| > 0 && IsSpace(s[0]) {
      var i', j' := TrimSpaceBounds(s[1..]);
      i, j := i' + 1, j' + 1;
      assert s[1..][i'..j'] == s[i..j];
      forall k | j <= k < |s| ensures IsSpace(s[k]) {
        assert s[k] == s[1..][k - 1];
      }
    } else if |s| > 0 && IsSpace(s[|s| - 1]) {
      i, j := TrimSpaceBounds(s[..|s| - 1]);
      assert s[..|s| - 1][i..j] == s[i..j];
    } else {
      i, j := 0, |s|;
    }
  }

  // ---------------------------------------------------------------------
  // strings.ToLower

  predicate IsUpperAscii(c: char) {
    'A' <= c <= 'Z'
  }

  /** unicode.ToLower, exact for every rune whose lower case is ASCII: the
      letters A-Z, U+0130 (capital I with dot) and U+212A (Kelvin sign).
      Other non-ASCII runes are kept as they are. */
  function LowerChar(c: char): char {
    if IsUpperAscii(c) then (c as int + 32) as char
    else if c == '\U{130}' then 'i'
    else if c == '\U{212A}' then 'k'
    else c
  }

  function ToLower(s: string): (r: string)
    ensures |r| == |s|
    ensures forall k :: 0 <= k < |s| ==> r[k] == LowerChar(s[k])
    ensures forall k :: 0 <= k < |r| ==> !IsUpperAscii(r[k])
  {
    seq(|s|, k requires 0 <= k < |s| => LowerChar(s[k]))
  }

  /** Lower-casing twice is lower-casing once. */
  lemma ToLowerIdempotent(s: string)
    ensures ToLower(ToLower(s)) == ToLower(s)
  {
    var once := ToLower(s);
    assert forall k :: 0 <= k < |once| ==> LowerChar(once[k]) == once[k];
  }

  // ---------------------------------------------------------------------
  // strings.ReplaceAll(s, string(c), "")

  /** `s` with every occurrence of `c` removed, the rest kept in order. */
  function RemoveAll(s: string, c: char): (r: string)
    ensures c !in r
    ensures |r| <= |s|
    ensures forall x :: x in r ==> x in s
    ensures c !in s ==> r == s
    decreases |s|
  {
    if |s| == 0 then ""
    else if s[0] == c then RemoveAll(s[1..], c)
    else [s[0]] + RemoveAll(s[1..], c)
  }

  // ---------------------------------------------------------------------
  // The switch key of the generated enum codecs

  /** The text lower-cased, with every '"' removed. */
  function EnumKey(text: string): (key: string)
    ensures forall k :: 0 <= k < |key| ==> !IsUpperAscii(key[k])
    ensures '"' !in key
  {
    var key := RemoveAll(ToLower(text), '"');
    assert forall k :: 0 <= k < |key| ==> key[k] in ToLower(text);
    key
  }

  /** The key of a name whose lower-case form has no '"'. */
  lemma EnumKeyOf(name: string, lower: string)
    requires ToLower(name) == lower && '"' !in lower
    ensures EnumKey(name) == lower
  {
  }

  /** Removing a character distributes over concatenation. */
  lemma {:induction false} RemoveAllAppend(a: string, b: string, c: char)
    ensures RemoveAll(a + b, c) == RemoveAll(a, c) + RemoveAll(b, c)
    decreases |a|
  {
    if |a| == 0 {
      assert a + b == b;
    } else {
      assert (a + b)[0] == a[0];
      assert (a + b)[1..] == a[1..] + b;
      RemoveAllAppend(a[1..], b, c);
    }
  }

  /** Removing the quote character from a quoted word gives the word. */
  lemma Unquote(s: string, c: char)
    requires c !in s
    ensures RemoveAll([c] + s + [c], c) == s
  {
    RemoveAllAppend([c] + s, [c], c);
    RemoveAllAppend([c], s, c);
  }
}
