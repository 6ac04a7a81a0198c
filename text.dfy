/**
 * ASCII models of the Go `strings` functions the tools rely on:
 * TrimSpace, HasPrefix, Fields, Join, Split, ToLower, IndexByte and TrimSuffix.
 * Unicode white space and case mapping beyond ASCII are not modelled.
 *
 * The functions carry only quantifier-free contracts; what they mean
 * character by character is stated by the lemmas next to them, which callers
 * invoke where they need it.
 */
module Text {

  /** `unicode.IsSpace` restricted to ASCII: space, \t, \n, \v, \f and \r. */
  predicate IsSpace(c: char) {
    c == ' ' || '\t' <= c <= '\r'
  }

  /** A non-empty word without white space, as `strings.Fields` returns them. */
  predicate IsToken(w: string) {
    w != [] && forall k :: 0 <= k < |w| ==> !IsSpace(w[k])
  }

  predicate AllSpace(s: string) {
    forall k :: 0 <= k < |s| ==> IsSpace(s[k])
  }

  /** Neither end of `s` is white space. */
  predicate Trimmed(s: string) {
    s != [] ==> !IsSpace(s[0]) && !IsSpace(s[|s| - 1])
  }

  // ---------------------------------------------------------------------------
  // HasPrefix
  // ---------------------------------------------------------------------------

  function HasPrefix(s: string, p: string): bool {
    |p| <= |s| && s[..|p|] == p
  }

  lemma HasPrefixIsPrefix(s: string, p: string)
    ensures HasPrefix(s, p) <==> p <= s
  {
  }

  lemma HasPrefixAppend(p: string, rest: string)
    ensures HasPrefix(p + rest, p)
  {
    assert (p + rest)[..|p|] == p;
  }

  // ---------------------------------------------------------------------------
  // TrimSpace
  // ---------------------------------------------------------------------------

  /** The length of the leading run of white space. */
  function LeadingSpace(s: string): (n: nat)
    ensures n <= |s|
    ensures n < |s| ==> !IsSpace(s[n])
  {
    if s != [] && IsSpace(s[0]) then 1 + LeadingSpace(s[1..]) else 0
  }

  lemma {:induction false} LeadingSpaceIsSpace(s: string)
    ensures AllSpace(s[..LeadingSpace(s)])
  {
    if s != [] && IsSpace(s[0]) {
      LeadingSpaceIsSpace(s[1..]);
      var n := LeadingSpace(s[1..]);
      assert s[..1 + n] == [s[0]] + s[1..][..n];
    }
  }

  /** The end of the text without its trailing run of white space. */
  function TrailingEnd(s: string): (n: nat)
    ensures n <= |s|
    ensures n > 0 ==> !IsSpace(s[n - 1])
  {
    if s != [] && IsSpace(s[|s| - 1]) then TrailingEnd(s[..|s| - 1]) else |s|
  }

  lemma {:induction false} TrailingEndIsSpace(s: string)
    ensures AllSpace(s[TrailingEnd(s)..])
  {
    if s != [] && IsSpace(s[|s| - 1]) {
      var t := s[..|s| - 1];
      TrailingEndIsSpace(t);
      var n := TrailingEnd(t);
      assert s[n..] == t[n..] + [s[|s| - 1]];
    }
  }

  /** Drops leading white space. */
  function TrimLeft(s: string): string {
    s[LeadingSpace(s)..]
  }

  /** Drops trailing white space. */
  function TrimRight(s: string): string {
    s[..TrailingEnd(s)]
  }

  /** `strings.TrimSpace`: the text without its outer runs of white space. */
  function TrimSpace(s: string): string {
    TrimRight(TrimLeft(s))
  }

  /** Neither end of a trimmed text is white space. */
  lemma TrimSpaceTrimmed(s: string)
    ensures Trimmed(TrimSpace(s))
  {
    var l := TrimLeft(s);
    var t := TrimRight(l);
    if t != [] {
      assert t[0] == l[0];
      assert l[0] == s[LeadingSpace(s)];
    }
  }

  /** TrimSpace removes white space only: the text is the result with space around it. */
  lemma TrimSpaceInside(s: string)
    ensures exists a, b :: 0 <= a <= b <= |s| && TrimSpace(s) == s[a..b]
                           && AllSpace(s[..a]) && AllSpace(s[b..])
  {
    var a := LeadingSpace(s);
    var l := s[a..];
    var e := TrailingEnd(l);
    LeadingSpaceIsSpace(s);
    TrailingEndIsSpace(l);
    assert TrimSpace(s) == s[a..a + e];
    assert s[a + e..] == l[e..];
  }

  /** A text without white space at either end is its own trimmed form. */
  lemma TrimSpaceOfTrimmed(s: string)
    requires Trimmed(s)
    ensures TrimSpace(s) == s
  {
    assert LeadingSpace(s) == 0;
    assert s[0..] == s;
    if s != [] {
      assert TrailingEnd(s) == |s|;
    }
  }

  lemma TrimSpaceIdempotent(s: string)
    ensures TrimSpace(TrimSpace(s)) == TrimSpace(s)
  {
    TrimSpaceTrimmed(s);
    TrimSpaceOfTrimmed(TrimSpace(s));
  }

  /** Leading white space in front of a trimmed text is dropped. */
  lemma TrimSpaceAfterSpace(a: string, v: string)
    requires AllSpace(a) && Trimmed(v)
    ensures TrimSpace(a + v) == v
  {
    LeadingSpaceOfSpace(a, v);
    assert (a + v)[|a|..] == v;
    TrimSpaceOfTrimmed(v);
  }

  lemma {:induction false} LeadingSpaceOfSpace(a: string, v: string)
    requires AllSpace(a) && (v != [] ==> !IsSpace(v[0]))
    ensures LeadingSpace(a + v) == |a|
  {
    if a == [] {
      assert a + v == v;
    } else {
      assert (a + v)[1..] == a[1..] + v;
      LeadingSpaceOfSpace(a[1..], v);
    }
  }

  // ---------------------------------------------------------------------------
  // Fields and Join
  // ---------------------------------------------------------------------------

  /** The length of the leading run of non-white-space characters. */
  function WordEnd(s: string): (n: nat)
    ensures n <= |s|
    ensures n < |s| ==> IsSpace(s[n])
    ensures s != [] && !IsSpace(s[0]) ==> n > 0
  {
    if s == [] || IsSpace(s[0]) then 0 else 1 + WordEnd(s[1..])
  }

  lemma {:induction false} WordEndNoSpace(s: string)
    ensures forall k :: 0 <= k < WordEnd(s) ==> !IsSpace(s[k])
  {
    if s != [] && !IsSpace(s[0]) {
      WordEndNoSpace(s[1..]);
      assert forall k :: 1 <= k < WordEnd(s) ==> s[k] == s[1..][k - 1];
    }
  }

  /** `strings.Fields`: the maximal runs of non-white-space characters, in order. */
  function Fields(s: string): seq<string>
    decreases |s|
  {
    var t := TrimLeft(s);
    if t == [] then [] else
      var n := WordEnd(t);
      [t[..n]] + Fields(t[n..])
  }

  predicate AllTokens(words: seq<string>) {
    forall k :: 0 <= k < |words| ==> IsToken(words[k])
  }

  lemma ConsTokens(w: string, words: seq<string>)
    requires IsToken(w) && AllTokens(words)
    ensures AllTokens([w] + words)
  {
    assert forall k :: 1 <= k < |words| + 1 ==> ([w] + words)[k] == words[k - 1];
  }

  /** Every word `strings.Fields` returns is a token. */
  lemma {:induction false} FieldsTokens(s: string)
    ensures AllTokens(Fields(s))
    decreases |s|
  {
    var t := TrimLeft(s);
    if t != [] {
      var n := WordEnd(t);
      WordEndNoSpace(t);
      FieldsTokens(t[n..]);
      ConsTokens(t[..n], Fields(t[n..]));
    }
  }

  /** `strings.Join`. */
  function Join(parts: seq<string>, sep: string): string {
    if |parts| == 0 then ""
    else if |parts| == 1 then parts[0]
    else parts[0] + sep + Join(parts[1..], sep)
  }

  lemma JoinCons(parts: seq<string>, sep: string)
    requires |parts| > 1
    ensures Join(parts, sep) == parts[0] + (sep + Join(parts[1..], sep))
  {
  }

  /** Two or more parts joined with a one-character separator contain it. */
  lemma JoinHasSeparator(parts: seq<string>, c: char)
    requires |parts| > 1
    ensures c in Join(parts, [c])
  {
    var j := Join(parts, [c]);
    JoinCons(parts, [c]);
    assert j[|parts[0]|] == c;
  }

  /** A token followed by white space (or by nothing) is the first word. */
  lemma FieldsCons(w: string, rest: string)
    requires IsToken(w)
    requires rest == [] || IsSpace(rest[0])
    ensures Fields(w + rest) == [w] + Fields(rest)
  {
    var s := w + rest;
    assert s[0] == w[0];
    assert LeadingSpace(s) == 0;
    assert TrimLeft(s) == s;
    WordEndOfToken(w, rest);
    assert s[..|w|] == w;
    assert s[|w|..] == rest;
    FieldsTrimLeft(rest);
  }

  lemma {:induction false} WordEndOfToken(w: string, rest: string)
    requires forall k :: 0 <= k < |w| ==> !IsSpace(w[k])
    requires rest == [] || IsSpace(rest[0])
    ensures WordEnd(w + rest) == |w|
  {
    if w == [] {
      assert w + rest == rest;
    } else {
      assert (w + rest)[1..] == w[1..] + rest;
      WordEndOfToken(w[1..], rest);
    }
  }

  /** Dropping leading white space does not change the words. */
  lemma FieldsTrimLeft(s: string)
    ensures Fields(TrimLeft(s)) == Fields(s)
  {
    var t := TrimLeft(s);
    assert LeadingSpace(t) == 0;
    assert t[0..] == t;
  }

  /** A token, a space and a text: the token, then the words of the text. */
  lemma FieldsTokenSpace(w: string, tail: string)
    requires IsToken(w)
    ensures Fields(w + (" " + tail)) == [w] + Fields(tail)
  {
    FieldsCons(w, " " + tail);
    assert (" " + tail)[1..] == tail;
    assert TrimLeft(" " + tail) == TrimLeft(tail);
    FieldsTrimLeft(" " + tail);
    FieldsTrimLeft(tail);
  }

  /** A lone token is its own only word. */
  lemma FieldsToken(w: string)
    requires IsToken(w)
    ensures Fields(w) == [w]
  {
    FieldsCons(w, "");
    assert w + "" == w;
  }

  /** Splitting tokens joined by single spaces into words gives the tokens back. */
  lemma {:induction false} FieldsJoin(words: seq<string>)
    requires AllTokens(words)
    ensures Fields(Join(words, " ")) == words
  {
    if |words| == 1 {
      FieldsToken(words[0]);
    } else if |words| > 1 {
      FieldsJoin(words[1..]);
      FieldsJoinStep(words);
    }
  }

  lemma FieldsJoinStep(words: seq<string>)
    requires |words| > 1 && IsToken(words[0])
    requires Fields(Join(words[1..], " ")) == words[1..]
    ensures Fields(Join(words, " ")) == words
  {
    JoinCons(words, " ");
    FieldsTokenSpace(words[0], Join(words[1..], " "));
  }

  /** Leading white space ends at the latest at the first non-space character. */
  lemma {:induction false} LeadingSpaceBefore(s: string, k: nat)
    requires k < |s| && !IsSpace(s[k])
    ensures LeadingSpace(s) <= k
  {
    if IsSpace(s[0]) {
      assert s[1..][k - 1] == s[k];
      LeadingSpaceBefore(s[1..], k - 1);
    }
  }

  /** A text that ends in a non-space character has a word. */
  lemma FieldsNonBlank(s: string)
    requires s != [] && !IsSpace(s[|s| - 1])
    ensures Fields(s) != []
  {
    LeadingSpaceBefore(s, |s| - 1);
  }

  /**
   * A trimmed line that starts with a keyword and a space: its words are the
   * keyword and then at least one word of the text after the space.
   */
  lemma KeywordFields(line: string, keyword: string)
    requires IsToken(keyword) && Trimmed(line) && HasPrefix(line, keyword + " ")
    ensures Fields(line) == [keyword] + Fields(line[|keyword| + 1..])
    ensures Fields(line[|keyword| + 1..]) != []
  {
    var tail := line[|keyword| + 1..];
    assert line[..|keyword| + 1] == keyword + " ";
    assert line == keyword + (" " + tail);
    FieldsTokenSpace(keyword, tail);
    assert line[|keyword|] == ' ';
    assert tail[|tail| - 1] == line[|line| - 1];
    FieldsNonBlank(tail);
  }

  /** A text made only of white space has no words. */
  lemma FieldsOfBlank(s: string)
    requires AllSpace(s)
    ensures Fields(s) == []
  {
    LeadingSpaceAllSpace(s);
  }

  lemma {:induction false} LeadingSpaceAllSpace(s: string)
    requires AllSpace(s)
    ensures LeadingSpace(s) == |s|
  {
    if s != [] {
      assert AllSpace(s[1..]) by {
        assert forall k :: 0 <= k < |s| - 1 ==> s[1..][k] == s[k + 1];
      }
      LeadingSpaceAllSpace(s[1..]);
    }
  }

  // ---------------------------------------------------------------------------
  // IndexByte and Split
  // ---------------------------------------------------------------------------

  /** `strings.IndexByte`: the first position of `c` in `s`, or -1. */
  function IndexOf(s: string, c: char): (i: int)
    ensures -1 <= i < |s|
  {
    if s == [] then -1
    else if s[0] == c then 0
    else
      var j := IndexOf(s[1..], c);
      if j == -1 then -1 else j + 1
  }

  /** A non-negative result is an occurrence of `c`. */
  lemma {:induction false} IndexOfFound(s: string, c: char)
    ensures IndexOf(s, c) >= 0 ==> s[IndexOf(s, c)] == c
  {
    if s != [] && s[0] != c {
      IndexOfFound(s[1..], c);
    }
  }

  /** -1 exactly when `c` does not occur; otherwise its first occurrence. */
  lemma {:induction false} IndexOfFirst(s: string, c: char)
    ensures IndexOf(s, c) == -1 <==> c !in s
    ensures IndexOf(s, c) >= 0 ==> s[IndexOf(s, c)] == c && c !in s[..IndexOf(s, c)]
  {
    if s != [] && s[0] != c {
      IndexOfFirst(s[1..], c);
      assert s == [s[0]] + s[1..];
      var j := IndexOf(s[1..], c);
      if j >= 0 {
        assert s[..j + 1] == [s[0]] + s[1..][..j];
      }
    }
  }

  /** The first occurrence is found wherever it sits. */
  lemma {:induction false} IndexOfAt(s: string, c: char, i: nat)
    requires i < |s| && s[i] == c && c !in s[..i]
    ensures IndexOf(s, c) == i
  {
    if i > 0 {
      assert s[..i][0] == s[0];
      assert s[1..][i - 1] == c;
      assert s[1..][..i - 1] == s[..i][1..];
      IndexOfAt(s[1..], c, i - 1);
    }
  }

  /** `strings.LastIndexByte`: the last position of `c` in `s`, or -1. */
  function LastIndexOf(s: string, c: char): (i: int)
    ensures -1 <= i < |s|
    decreases |s|
  {
    if s == [] then -1
    else if s[|s| - 1] == c then |s| - 1
    else LastIndexOf(s[..|s| - 1], c)
  }

  /** The last `c` of `head + [c] + tail` is the one after `head` when `tail` has none. */
  lemma {:induction false} LastIndexOfAt(head: string, c: char, tail: string)
    requires c !in tail
    ensures LastIndexOf(head + [c] + tail, c) == |head|
    decreases |tail|
  {
    var s := head + [c] + tail;
    if tail != [] {
      var t := tail[..|tail| - 1];
      assert s[|s| - 1] == tail[|tail| - 1];
      assert s[..|s| - 1] == head + [c] + t;
      assert c !in t by {
        assert forall k :: 0 <= k < |t| ==> t[k] == tail[k];
      }
      LastIndexOfAt(head, c, t);
    }
  }

  /** No occurrence exactly when -1; otherwise an occurrence with none after it. */
  lemma {:induction false} LastIndexOfLast(s: string, c: char)
    ensures LastIndexOf(s, c) == -1 <==> c !in s
    ensures LastIndexOf(s, c) >= 0 ==> s[LastIndexOf(s, c)] == c && c !in s[LastIndexOf(s, c) + 1..]
    decreases |s|
  {
    if s != [] && s[|s| - 1] != c {
      var p := s[..|s| - 1];
      LastIndexOfLast(p, c);
      assert s == p + [s[|s| - 1]];
      var i := LastIndexOf(p, c);
      if i >= 0 {
        assert s[i + 1..] == p[i + 1..] + [s[|s| - 1]];
      }
    }
  }

  /** `strings.Split` on a one-character separator: always at least one part. */
  function Split(s: string, c: char): (r: seq<string>)
    ensures |r| >= 1
    decreases |s|
  {
    var i := IndexOf(s, c);
    if i < 0 then [s] else [s[..i]] + Split(s[i + 1..], c)
  }

  predicate NoneHolds(parts: seq<string>, c: char) {
    forall k :: 0 <= k < |parts| ==> c !in parts[k]
  }

  lemma ConsNoneHolds(p: string, parts: seq<string>, c: char)
    requires c !in p && NoneHolds(parts, c)
    ensures NoneHolds([p] + parts, c)
  {
    assert forall k :: 1 <= k < |parts| + 1 ==> ([p] + parts)[k] == parts[k - 1];
  }

  /** No part of a split holds the separator. */
  lemma {:induction false} SplitParts(s: string, c: char)
    ensures NoneHolds(Split(s, c), c)
    decreases |s|
  {
    IndexOfFirst(s, c);
    var i := IndexOf(s, c);
    if i >= 0 {
      SplitParts(s[i + 1..], c);
      ConsNoneHolds(s[..i], Split(s[i + 1..], c), c);
    }
  }

  /** Splitting a joined list on its own separator gives the list back. */
  lemma {:induction false} SplitJoin(parts: seq<string>, c: char)
    requires |parts| >= 1
    requires NoneHolds(parts, c)
    ensures Split(Join(parts, [c]), c) == parts
  {
    if |parts| > 1 {
      var s := Join(parts, [c]);
      var tail := Join(parts[1..], [c]);
      assert s == parts[0] + [c] + tail;
      assert s[..|parts[0]|] == parts[0];
      assert s[|parts[0]|] == c;
      IndexOfAt(s, c, |parts[0]|);
      assert s[|parts[0]| + 1..] == tail;
      SplitJoin(parts[1..], c);
    } else {
      IndexOfFirst(parts[0], c);
    }
  }

  lemma {:induction false} JoinSnoc(parts: seq<string>, sep: string, last: string)
    requires |parts| >= 1
    ensures Join(parts + [last], sep) == Join(parts, sep) + sep + last
  {
    var all := parts + [last];
    if |parts| > 1 {
      assert all[1..] == parts[1..] + [last];
      JoinSnoc(parts[1..], sep, last);
    }
  }

  /** Appending a separator and a separator-free part adds that part to the split. */
  lemma SplitSnoc(s: string, c: char, last: string)
    requires c !in last
    ensures Split(s + [c] + last, c) == Split(s, c) + [last]
  {
    var parts := Split(s, c);
    JoinSplit(s, c);
    JoinSnoc(parts, [c], last);
    SplitParts(s, c);
    assert NoneHolds(parts + [last], c) by {
      assert forall k :: 0 <= k < |parts| ==> (parts + [last])[k] == parts[k];
    }
    SplitJoin(parts + [last], c);
  }

  /** Trimming only removes characters. */
  lemma TrimSpaceKeeps(s: string, c: char)
    requires c !in s
    ensures c !in TrimSpace(s)
  {
    var a := LeadingSpace(s);
    var e := TrailingEnd(s[a..]);
    assert TrimSpace(s) == s[a..][..e];
    assert forall k :: 0 <= k < e ==> TrimSpace(s)[k] == s[a + k];
  }

  /** Joining the parts of a split with the separator gives the text back. */
  lemma {:induction false} JoinSplit(s: string, c: char)
    ensures Join(Split(s, c), [c]) == s
    decreases |s|
  {
    var i := IndexOf(s, c);
    if i >= 0 {
      IndexOfFound(s, c);
      JoinSplit(s[i + 1..], c);
      JoinSplitStep(s, c, i, Split(s[i + 1..], c));
    }
  }

  lemma JoinSplitStep(s: string, c: char, i: nat, rest: seq<string>)
    requires i < |s| && s[i] == c && |rest| >= 1
    requires Join(rest, [c]) == s[i + 1..]
    ensures Join([s[..i]] + rest, [c]) == s
  {
    var parts := [s[..i]] + rest;
    assert parts[1..] == rest;
    JoinCons(parts, [c]);
    assert s == s[..i] + ([c] + s[i + 1..]);
  }

  // ---------------------------------------------------------------------------
  // ToLower and TrimSuffix
  // ---------------------------------------------------------------------------

  /** `strings.ToLower` on one ASCII character. */
  function LowerChar(c: char): char {
    if 'A' <= c <= 'Z' then (c as int + 32) as char else c
  }

  function ToLower(s: string): (r: string)
    ensures |r| == |s|
  {
    if s == [] then [] else [LowerChar(s[0])] + ToLower(s[1..])
  }

  /** Lower-casing works character by character. */
  lemma {:induction false} ToLowerEach(s: string)
    ensures forall k :: 0 <= k < |s| ==> ToLower(s)[k] == LowerChar(s[k])
  {
    if s != [] {
      ToLowerEach(s[1..]);
      assert forall k :: 1 <= k < |s| ==> ToLower(s)[k] == ToLower(s[1..])[k - 1];
    }
  }

  /** Lower-casing twice is lower-casing once. */
  lemma ToLowerIdempotent(s: string)
    ensures ToLower(ToLower(s)) == ToLower(s)
  {
    ToLowerEach(s);
    ToLowerEach(ToLower(s));
  }

  /** `strings.TrimSuffix` with a one-character suffix. */
  function TrimSuffix(s: string, c: char): (r: string)
    ensures s != [] && s[|s| - 1] == c ==> r + [c] == s
    ensures !(s != [] && s[|s| - 1] == c) ==> r == s
  {
    if s != [] && s[|s| - 1] == c then s[..|s| - 1] else s
  }
}
