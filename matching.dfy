/**
 The matcher of the voice-command controls: the five match types and the
 pure predicate that decides whether a (lower-cased) command satisfies a
 registered pattern under one of them.
 */
module Matching {

  /** The match types a registration may carry, in declaration order. */
  datatype MatchType = AllKeywords | Dynamic | StartsWith | Static | Substring

  /** The characters Python's `str.split()` (with no separator) treats as whitespace. */
  predicate IsSpace(c: char)
  {
    c == ' ' || c == '\t' || c == '\n' || c == '\r' || c == '\U{0B}' || c == '\U{0C}'
    || ('\U{1C}' <= c <= '\U{1F}')
    || c == '\U{85}' || c == '\U{A0}' || c == '\U{1680}'
    || ('\U{2000}' <= c <= '\U{200A}')
    || c == '\U{2028}' || c == '\U{2029}' || c == '\U{202F}' || c == '\U{205F}' || c == '\U{3000}'
  }

  predicate NoSpace(s: string)
  {
    forall k :: 0 <= k < |s| ==> !IsSpace(s[k])
  }

  predicate Blank(s: string)
  {
    forall k :: 0 <= k < |s| ==> IsSpace(s[k])
  }

  /** A word as `str.split()` produces it: non-empty and free of whitespace. */
  predicate IsWord(w: string)
  {
    w != [] && NoSpace(w)
  }

  predicate AllWords(ws: seq<string>)
  {
    forall k :: 0 <= k < |ws| ==> IsWord(ws[k])
  }

  // ---------------------------------------------------------------------------
  // Prefix and substring tests (`str.startswith`, `in` on strings)
  // ---------------------------------------------------------------------------

  /** `s.startswith(prefix)`. */
  predicate StartsWithText(s: string, prefix: string)
  {
    prefix <= s
  }

  /** `part in s`: the walk that tries every starting offset of `s` in turn. */
  function Contains(s: string, part: string): (r: bool)
    ensures r ==> |part| <= |s|
    ensures part == [] ==> r
    decreases |s|
  {
    part <= s || (s != [] && Contains(s[1..], part))
  }

  /** Reference meaning of containment: `part` sits in `s` at offset `i`. */
  ghost predicate OccursAt(s: string, part: string, i: nat)
  {
    i + |part| <= |s| && s[i..i + |part|] == part
  }

  /** The walk in `Contains` finds `part` exactly when it occurs at some offset. */
  lemma {:induction false} ContainsOccurs(s: string, part: string)
    ensures Contains(s, part) <==> exists i: nat :: OccursAt(s, part, i)
    decreases |s|
  {
    if part <= s {
      assert OccursAt(s, part, 0);
    } else if s != [] {
      ContainsOccurs(s[1..], part);
      if Contains(s[1..], part) {
        var i: nat :| OccursAt(s[1..], part, i);
        assert s[1..][i..i + |part|] == s[i + 1..i + 1 + |part|];
        assert OccursAt(s, part, i + 1);
      }
      if exists i: nat :: OccursAt(s, part, i) {
        var i: nat :| OccursAt(s, part, i);
        assert i > 0;
        assert s[1..][i - 1..i - 1 + |part|] == s[i..i + |part|];
        assert OccursAt(s[1..], part, i - 1);
      }
    }
  }

  /** Every character of a contained part is a character of the whole. */
  lemma ContainsChars(s: string, part: string, k: nat)
    requires Contains(s, part)
    requires k < |part|
    ensures part[k] in s
  {
    ContainsOccurs(s, part);
    var i: nat :| OccursAt(s, part, i);
    assert s[i + k] == part[k];
  }

  /** Text put in front keeps a contained part contained. */
  lemma {:induction false} ContainsPrepend(more: string, s: string, part: string)
    requires Contains(s, part)
    ensures Contains(more + s, part)
    decreases |more|
  {
    if more != [] {
      assert (more + s)[1..] == more[1..] + s;
      ContainsPrepend(more[1..], s, part);
    } else {
      assert more + s == s;
    }
  }

  /** The concatenation of `pieces`, in order. */
  function Concat(pieces: seq<string>): string
  {
    if pieces == [] then [] else pieces[0] + Concat(pieces[1..])
  }

  /** Each piece of a concatenation is contained in it. */
  lemma {:induction false} ContainsPiece(pieces: seq<string>, k: nat)
    requires k < |pieces|
    ensures Contains(Concat(pieces), pieces[k])
  {
    if k == 0 {
      assert pieces[0] <= Concat(pieces);
    } else {
      ContainsPiece(pieces[1..], k - 1);
      ContainsPrepend(pieces[0], Concat(pieces[1..]), pieces[k]);
    }
  }

  /** A part holding a character the whole lacks is not contained. */
  lemma MissingCharNotContained(s: string, part: string, k: nat)
    requires k < |part| && part[k] !in s
    ensures !Contains(s, part)
  {
    if Contains(s, part) {
      ContainsChars(s, part, k);
    }
  }

  /** Every prefix is contained. */
  lemma PrefixContained(s: string, prefix: string)
    requires StartsWithText(s, prefix)
    ensures Contains(s, prefix)
  {
  }

  // ---------------------------------------------------------------------------
  // `str.split()` with no separator
  // ---------------------------------------------------------------------------

  /** The maximal whitespace-free prefix of `s`. */
  function LeadingWord(s: string): (w: string)
    ensures w <= s && NoSpace(w)
    ensures |w| < |s| ==> IsSpace(s[|w|])
    ensures s != [] && !IsSpace(s[0]) ==> w != []
  {
    if s == [] || IsSpace(s[0]) then [] else [s[0]] + LeadingWord(s[1..])
  }

  /** `s.split()`: the maximal runs of non-whitespace characters, in order. */
  function Split(s: string): (words: seq<string>)
    ensures AllWords(words)
    decreases |s|
  {
    if s == [] then []
    else if IsSpace(s[0]) then Split(s[1..])
    else
      var w := LeadingWord(s);
      [w] + Split(s[|w|..])
  }

  /** `" ".join(words)`. */
  function Join(words: seq<string>): string
  {
    if |words| == 0 then ""
    else if |words| == 1 then words[0]
    else words[0] + " " + Join(words[1..])
  }

  lemma {:induction false} LeadingWordOf(w: string, t: string)
    requires NoSpace(w)
    requires t == [] || IsSpace(t[0])
    ensures LeadingWord(w + t) == w
  {
    if w != [] {
      assert (w + t)[1..] == w[1..] + t;
      LeadingWordOf(w[1..], t);
    } else {
      assert w + t == t;
    }
  }

  /** A word followed by whitespace (or by nothing) splits off as the first word. */
  lemma SplitWordThen(w: string, t: string)
    requires IsWord(w)
    requires t == [] || IsSpace(t[0])
    ensures Split(w + t) == [w] + Split(t)
  {
    LeadingWordOf(w, t);
    assert (w + t)[0] == w[0];
    assert (w + t)[|w|..] == t;
  }

  /** Leading whitespace, however long, is dropped. */
  lemma {:induction false} SplitBlankPrefix(b: string, rest: string)
    requires Blank(b)
    ensures Split(b + rest) == Split(rest)
    decreases |b|
  {
    if b != [] {
      assert IsSpace(b[0]);
      assert (b + rest)[1..] == b[1..] + rest;
      SplitBlankPrefix(b[1..], rest);
    } else {
      assert b + rest == rest;
    }
  }

  /** A word followed by any non-empty run of whitespace splits off as the first word. */
  lemma SplitWordBlank(w: string, b: string, rest: string)
    requires IsWord(w) && b != [] && Blank(b)
    ensures Split(w + b + rest) == [w] + Split(rest)
  {
    assert w + b + rest == w + (b + rest);
    SplitWordThen(w, b + rest);
    SplitBlankPrefix(b, rest);
  }

  /**
   A layout of `words`: `seps[0] + words[0] + seps[1] + ... + words[n-1] + seps[n]`,
   the general shape of a text whose `split()` is `words`.
   */
  function Layout(words: seq<string>, seps: seq<string>): string
    requires |seps| == |words| + 1
  {
    if words == [] then seps[0] else seps[0] + words[0] + Layout(words[1..], seps[1..])
  }

  /**
   The separators of a layout are whitespace; those between two words are
   non-empty, while the leading and trailing ones may be empty.
   */
  predicate Spacing(words: seq<string>, seps: seq<string>)
  {
    AllWords(words) && |seps| == |words| + 1
    && (forall k :: 0 <= k < |seps| ==> Blank(seps[k]))
    && (forall k :: 0 < k < |words| ==> seps[k] != [])
  }

  /**
   `str.split()` on any layout gives back exactly its words, in order: runs of
   whitespace of any kind and length separate words, and whitespace at either
   end yields no empty words.
   */
  lemma {:induction false} SplitLayout(words: seq<string>, seps: seq<string>)
    requires Spacing(words, seps)
    ensures Split(Layout(words, seps)) == words
  {
    if words == [] {
      SplitBlankPrefix(seps[0], []);
      assert seps[0] + [] == seps[0];
    } else {
      var w, t := words[0], Layout(words[1..], seps[1..]);
      assert Spacing(words[1..], seps[1..]) by {
        assert forall k :: 0 <= k < |seps[1..]| ==> seps[1..][k] == seps[k + 1];
        assert forall k :: 0 <= k < |words[1..]| ==> words[1..][k] == words[k + 1];
      }
      assert Blank(seps[1]);
      if |words| > 1 {
        assert seps[1] != [];
        assert t == seps[1] + (words[1] + Layout(words[2..], seps[2..])) by {
          assert words[1..][1..] == words[2..] && seps[1..][1..] == seps[2..];
        }
        assert t[0] == seps[1][0];
      } else {
        assert t == seps[1];
      }
      SplitWordThen(w, t);
      SplitLayout(words[1..], seps[1..]);
      assert Layout(words, seps) == seps[0] + (w + t);
      SplitBlankPrefix(seps[0], w + t);
      assert words == [w] + words[1..];
    }
  }

  /** A whitespace character in front of a layout joins its leading separator. */
  lemma LayoutPrependSpace(c: char, ws: seq<string>, ss: seq<string>)
    requires IsSpace(c) && Spacing(ws, ss)
    ensures Spacing(ws, [[c] + ss[0]] + ss[1..])
    ensures Layout(ws, [[c] + ss[0]] + ss[1..]) == [c] + Layout(ws, ss)
  {
    var seps := [[c] + ss[0]] + ss[1..];
    assert Blank([c] + ss[0]) by {
      forall k | 0 <= k < |[c] + ss[0]| ensures IsSpace(([c] + ss[0])[k]) {
        if k > 0 { assert ([c] + ss[0])[k] == ss[0][k - 1]; }
      }
    }
    assert forall k :: 0 < k < |seps| ==> seps[k] == ss[k];
    assert seps[1..] == ss[1..];
  }

  /** A non-whitespace character right in front of a layout's first word extends that word. */
  lemma LayoutExtendWord(c: char, ws: seq<string>, ss: seq<string>)
    requires !IsSpace(c) && Spacing(ws, ss) && ss[0] == [] && ws != []
    ensures Spacing([[c] + ws[0]] + ws[1..], ss)
    ensures Layout([[c] + ws[0]] + ws[1..], ss) == [c] + Layout(ws, ss)
  {
    var w := [c] + ws[0];
    var words := [w] + ws[1..];
    assert NoSpace(w) by {
      forall k | 0 <= k < |w| ensures !IsSpace(w[k]) {
        if k > 0 { assert w[k] == ws[0][k - 1]; }
      }
    }
    assert forall k :: 0 < k < |words| ==> words[k] == ws[k];
    assert words[1..] == ws[1..];
  }

  /** A non-whitespace character in front of a separator (or of nothing) starts a new word. */
  lemma LayoutNewWord(c: char, ws: seq<string>, ss: seq<string>)
    requires !IsSpace(c) && Spacing(ws, ss) && (ss[0] != [] || ws == [])
    ensures Spacing([[c]] + ws, [""] + ss)
    ensures Layout([[c]] + ws, [""] + ss) == [c] + Layout(ws, ss)
  {
    var words, seps := [[c]] + ws, [""] + ss;
    assert forall k :: 0 < k < |words| ==> words[k] == ws[k - 1];
    assert forall k :: 0 < k < |seps| ==> seps[k] == ss[k - 1];
    assert words[1..] == ws && seps[1..] == ss;
  }

  /**
   Every text is a layout of some words, namely the words `str.split()`
   returns: so `SplitLayout` and the ALL_KEYWORDS lemmas stated over layouts
   cover every pattern.
   */
  lemma {:induction false} LayoutOf(s: string) returns (words: seq<string>, seps: seq<string>)
    ensures Spacing(words, seps) && Layout(words, seps) == s
    ensures Split(s) == words
    decreases |s|
  {
    if s == [] {
      words, seps := [], [""];
    } else {
      var ws, ss := LayoutOf(s[1..]);
      var c := s[0];
      assert s == [c] + s[1..];
      if IsSpace(c) {
        LayoutPrependSpace(c, ws, ss);
        words, seps := ws, [[c] + ss[0]] + ss[1..];
      } else if ss[0] == [] && ws != [] {
        LayoutExtendWord(c, ws, ss);
        words, seps := [[c] + ws[0]] + ws[1..], ss;
      } else {
        LayoutNewWord(c, ws, ss);
        words, seps := [[c]] + ws, [""] + ss;
      }
    }
    SplitLayout(words, seps);
  }

  /** Splitting is the inverse of joining with single spaces. */
  lemma {:induction false} SplitJoin(words: seq<string>)
    requires AllWords(words)
    ensures Split(Join(words)) == words
  {
    if |words| == 1 {
      SplitWordThen(words[0], []);
      assert words[0] + [] == words[0];
    } else if |words| > 1 {
      SplitWordBlank(words[0], " ", Join(words[1..]));
      SplitJoin(words[1..]);
      assert words == [words[0]] + words[1..];
    }
  }

  /** A pattern splits into no words exactly when it is empty or all whitespace. */
  lemma {:induction false} SplitEmptyIffBlank(s: string)
    ensures Split(s) == [] <==> Blank(s)
    decreases |s|
  {
    if s != [] {
      SplitEmptyIffBlank(s[1..]);
      if IsSpace(s[0]) {
        assert Blank(s) <==> Blank(s[1..]) by {
          if Blank(s[1..]) {
            forall k | 0 <= k < |s| ensures IsSpace(s[k]) {
              if k > 0 { assert s[k] == s[1..][k - 1]; }
            }
          }
          if Blank(s) {
            forall k | 0 <= k < |s[1..]| ensures IsSpace(s[1..][k]) {
              assert s[1..][k] == s[k + 1];
            }
          }
        }
      }
    }
  }

  // ---------------------------------------------------------------------------
  // The matcher (`MatchAndPerformMixin.is_match`)
  // ---------------------------------------------------------------------------

  /**
   Whether `command` satisfies `pattern` under `kind`. SUBSTRING patterns are
   read as literal text; STATIC and DYNAMIC have no branch and never match.
   */
  function IsMatch(command: string, pattern: string, kind: MatchType): (r: bool)
    ensures kind == Static || kind == Dynamic ==> !r
    ensures r && (kind == Substring || kind == StartsWith) ==> |pattern| <= |command|
  {
    match kind
    case Substring => Contains(command, pattern)
    case AllKeywords => forall w :: w in Split(pattern) ==> Contains(command, w)
    case StartsWith => StartsWithText(command, pattern)
    case _ => false
  }

  /** SUBSTRING matches iff the pattern occurs contiguously somewhere in the command. */
  lemma SubstringMatchIff(command: string, pattern: string)
    ensures IsMatch(command, pattern, Substring) <==> exists i: nat :: OccursAt(command, pattern, i)
  {
    ContainsOccurs(command, pattern);
  }

  /** STARTS_WITH matches iff the command is the pattern followed by some rest. */
  lemma StartsWithMatchIff(command: string, pattern: string)
    ensures IsMatch(command, pattern, StartsWith) <==> exists rest :: command == pattern + rest
  {
    if pattern <= command {
      assert command == pattern + command[|pattern|..];
    }
  }

  /** A STARTS_WITH match is also a SUBSTRING match of the same pattern. */
  lemma StartsWithImpliesSubstring(command: string, pattern: string)
    requires IsMatch(command, pattern, StartsWith)
    ensures IsMatch(command, pattern, Substring)
  {
    PrefixContained(command, pattern);
  }

  /**
   ALL_KEYWORDS with a pattern laid out from `words` by any whitespace
   separators: every word is a substring of the command.
   */
  lemma AllKeywordsOfLayout(command: string, words: seq<string>, seps: seq<string>)
    requires Spacing(words, seps)
    ensures IsMatch(command, Layout(words, seps), AllKeywords)
        <==> forall k :: 0 <= k < |words| ==> Contains(command, words[k])
  {
    SplitLayout(words, seps);
  }

  /**
   ALL_KEYWORDS does not depend on the order or repetition of the pattern's
   words, nor on the whitespace between and around them.
   */
  lemma AllKeywordsOrderFree(command: string, words: seq<string>, seps: seq<string>,
                             others: seq<string>, otherSeps: seq<string>)
    requires Spacing(words, seps) && Spacing(others, otherSeps)
    requires forall w :: w in words <==> w in others
    ensures IsMatch(command, Layout(words, seps), AllKeywords)
         == IsMatch(command, Layout(others, otherSeps), AllKeywords)
  {
    SplitLayout(words, seps);
    SplitLayout(others, otherSeps);
  }

  /** An empty or all-whitespace ALL_KEYWORDS pattern matches every command. */
  lemma AllKeywordsBlank(command: string, pattern: string)
    requires Blank(pattern)
    ensures IsMatch(command, pattern, AllKeywords)
  {
    SplitEmptyIffBlank(pattern);
  }

  /** With a one-word pattern, ALL_KEYWORDS and SUBSTRING agree. */
  lemma AllKeywordsOneWord(command: string, word: string)
    requires IsWord(word)
    ensures IsMatch(command, word, AllKeywords) == IsMatch(command, word, Substring)
  {
    SplitWordThen(word, []);
    assert word + [] == word;
  }
}
