/**
 * The Python `str` operations the process manager relies on, over `string`
 * (`seq<char>`): `strip()`, `strip(chars)`, `lower()`, `startswith`,
 * `endswith`, the `in` substring test, `split(sep)` and the argument-free
 * `split()` that breaks a string into whitespace-separated words.
 */
module Text {

  /** The characters for which Python's `str.isspace()` holds. */
  const WhiteSpace: set<char> := {
    '\t', '\n', '\U{0B}', '\U{0C}', '\r', '\U{1C}', '\U{1D}', '\U{1E}', '\U{1F}', ' ',
    '\U{85}', '\U{A0}', '\U{1680}',
    '\U{2000}', '\U{2001}', '\U{2002}', '\U{2003}', '\U{2004}', '\U{2005}',
    '\U{2006}', '\U{2007}', '\U{2008}', '\U{2009}', '\U{200A}',
    '\U{2028}', '\U{2029}', '\U{202F}', '\U{205F}', '\U{3000}'
  }

  /** Every character of `s` is in `cs`. */
  predicate AllIn(s: string, cs: set<char>)
  {
    forall i :: 0 <= i < |s| ==> s[i] in cs
  }

  /** No character of `s` is in `cs`. */
  predicate NoneIn(s: string, cs: set<char>)
  {
    forall i :: 0 <= i < |s| ==> s[i] !in cs
  }

  // ---------------------------------------------------------------------------
  // strip
  // ---------------------------------------------------------------------------

  /** Drops the leading characters that are in `cs`: the left half of `s.strip(cs)`. */
  function TrimLeft(s: string, cs: set<char>): (r: string)
    ensures |r| <= |s|
    decreases |s|
  {
    if s != [] && s[0] in cs then TrimLeft(s[1..], cs) else s
  }

  /** Drops the trailing characters that are in `cs`: the right half of `s.strip(cs)`. */
  function TrimRight(s: string, cs: set<char>): (r: string)
    ensures |r| <= |s|
    decreases |s|
  {
    if s != [] && s[|s| - 1] in cs then TrimRight(s[..|s| - 1], cs) else s
  }

  /** `TrimLeft` drops a run of `cs` characters and leaves no `cs` character in front. */
  lemma {:induction false} TrimLeftSplit(s: string, cs: set<char>) returns (pre: string)
    ensures s == pre + TrimLeft(s, cs) && AllIn(pre, cs)
    ensures TrimLeft(s, cs) == [] || TrimLeft(s, cs)[0] !in cs
    decreases |s|
  {
    if s != [] && s[0] in cs {
      var rest := TrimLeftSplit(s[1..], cs);
      pre := [s[0]] + rest;
      assert s == [s[0]] + s[1..];
    } else {
      pre := [];
    }
  }

  /** `TrimRight` drops a run of `cs` characters and leaves no `cs` character at the end. */
  lemma {:induction false} TrimRightSplit(s: string, cs: set<char>) returns (post: string)
    ensures s == TrimRight(s, cs) + post && AllIn(post, cs)
    ensures var r := TrimRight(s, cs); r == [] || r[|r| - 1] !in cs
    decreases |s|
  {
    if s != [] && s[|s| - 1] in cs {
      var rest := TrimRightSplit(s[..|s| - 1], cs);
      post := rest + [s[|s| - 1]];
      assert s == s[..|s| - 1] + [s[|s| - 1]];
    } else {
      post := [];
    }
  }

  /** Python's `s.strip(chars)`, with `chars` given as a set. */
  function StripChars(s: string, cs: set<char>): (r: string)
    ensures |r| <= |s|
  {
    TrimRight(TrimLeft(s, cs), cs)
  }

  /** Python's `s.strip()`: drops surrounding whitespace. */
  function Strip(s: string): (r: string)
    ensures |r| <= |s|
  {
    StripChars(s, WhiteSpace)
  }

  /**
   * Stripping removes only characters of `cs`, and only at the two ends:
   * the input is the result with a run of `cs` characters on either side,
   * and the result neither starts nor ends with a character of `cs`.
   */
  lemma StripCharsDecomposes(s: string, cs: set<char>) returns (pre: string, post: string)
    ensures s == pre + StripChars(s, cs) + post
    ensures AllIn(pre, cs) && AllIn(post, cs)
    ensures var r := StripChars(s, cs); r == [] || (r[0] !in cs && r[|r| - 1] !in cs)
  {
    var left := TrimLeft(s, cs);
    var r := TrimRight(left, cs);
    assert StripChars(s, cs) == r;
    pre := TrimLeftSplit(s, cs);
    post := TrimRightSplit(left, cs);
    assert s == pre + (r + post);
    assert pre + (r + post) == pre + r + post;
    if r != [] {
      assert r[0] == left[0];
    }
  }

  /** Stripping leaves a string alone exactly when it neither starts nor ends with a character of `cs`. */
  lemma {:induction false} StripCharsUnchanged(s: string, cs: set<char>)
    ensures StripChars(s, cs) == s <==> (s == [] || (s[0] !in cs && s[|s| - 1] !in cs))
  {
    var pre, post := StripCharsDecomposes(s, cs);
    if s != [] && s[0] !in cs && s[|s| - 1] !in cs {
      assert TrimLeft(s, cs) == s;
      assert TrimRight(s, cs) == s;
    }
  }

  /** Leading `cs` characters in front of a string that does not start with one are exactly what `TrimLeft` drops. */
  lemma {:induction false} TrimLeftRun(pre: string, rest: string, cs: set<char>)
    requires AllIn(pre, cs) && rest != [] && rest[0] !in cs
    ensures TrimLeft(pre + rest, cs) == rest
    decreases |pre|
  {
    if pre == [] {
      assert pre + rest == rest;
    } else {
      assert (pre + rest)[1..] == pre[1..] + rest;
      TrimLeftRun(pre[1..], rest, cs);
    }
  }

  /** Trailing `cs` characters after a string that does not end with one are exactly what `TrimRight` drops. */
  lemma {:induction false} TrimRightRun(rest: string, post: string, cs: set<char>)
    requires AllIn(post, cs) && rest != [] && rest[|rest| - 1] !in cs
    ensures TrimRight(rest + post, cs) == rest
    decreases |post|
  {
    if post == [] {
      assert rest + post == rest;
    } else {
      var n := |post| - 1;
      assert (rest + post)[..|rest| + n] == rest + post[..n];
      TrimRightRun(rest, post[..n], cs);
    }
  }

  /**
   * The converse of `StripCharsDecomposes`: a string without `cs` at either
   * end, surrounded by runs of `cs`, is what stripping gives back.
   */
  lemma StripCharsOfSurrounded(pre: string, m: string, post: string, cs: set<char>)
    requires AllIn(pre, cs) && AllIn(post, cs)
    requires m == [] || (m[0] !in cs && m[|m| - 1] !in cs)
    ensures StripChars(pre + m + post, cs) == m
  {
    if m == [] {
      var s := pre + m + post;
      assert AllIn(s, cs) by {
        forall i | 0 <= i < |s| ensures s[i] in cs {
          if i < |pre| {
            assert s[i] == pre[i];
          } else {
            assert s[i] == post[i - |pre|];
          }
        }
      }
      TrimLeftAll(s, cs);
    } else {
      assert pre + m + post == pre + (m + post);
      TrimLeftRun(pre, m + post, cs);
      TrimRightRun(m, post, cs);
    }
  }

  /** A string made only of `cs` characters is trimmed away entirely. */
  lemma {:induction false} TrimLeftAll(s: string, cs: set<char>)
    requires AllIn(s, cs)
    ensures TrimLeft(s, cs) == []
    decreases |s|
  {
    if s != [] {
      TrimLeftAll(s[1..], cs);
    }
  }

  /** A string is blank (`not s.strip()`) exactly when all of it is whitespace. */
  lemma BlankIsAllSpace(s: string)
    ensures Strip(s) == [] <==> AllIn(s, WhiteSpace)
  {
    if AllIn(s, WhiteSpace) {
      TrimLeftAll(s, WhiteSpace);
    }
    var pre, post := StripCharsDecomposes(s, WhiteSpace);
    if Strip(s) == [] {
      assert s == pre + post;
      forall i | 0 <= i < |s| ensures s[i] in WhiteSpace {
        if i < |pre| {
          assert s[i] == pre[i];
        } else {
          assert s[i] == post[i - |pre|];
        }
      }
    }
  }

  // ---------------------------------------------------------------------------
  // lower
  // ---------------------------------------------------------------------------

  /** `c.lower()` for the ASCII letters; every other character is kept. */
  function LowerChar(c: char): char
  {
    if 'A' <= c <= 'Z' then (c as int + 32) as char else c
  }

  /** `s` holds no ASCII upper-case letter. */
  predicate NoUpper(s: string)
  {
    forall i :: 0 <= i < |s| ==> !('A' <= s[i] <= 'Z')
  }

  /** Python's `s.lower()`, restricted to the ASCII letters. */
  function Lower(s: string): (r: string)
    ensures |r| == |s| && NoUpper(r)
    ensures forall i :: 0 <= i < |s| && !('A' <= s[i] <= 'Z') ==> r[i] == s[i]
    ensures forall i :: 0 <= i < |s| && 'A' <= s[i] <= 'Z' ==> r[i] as int == s[i] as int + 32
  {
    seq(|s|, i requires 0 <= i < |s| => LowerChar(s[i]))
  }

  /** Lower-casing neither creates nor removes whitespace at any position. */
  lemma LowerKeepsSpace(s: string, i: int)
    requires 0 <= i < |s|
    ensures Lower(s)[i] in WhiteSpace <==> s[i] in WhiteSpace
  {
    if 'A' <= s[i] <= 'Z' {
      assert Lower(s)[i] == LowerChar(s[i]);
    }
  }

  /** Lower-casing changes nothing exactly when there is nothing upper-case; hence it is idempotent. */
  lemma LowerFixedPoint(s: string)
    ensures Lower(s) == s <==> NoUpper(s)
    ensures Lower(Lower(s)) == Lower(s)
  {
    if NoUpper(s) {
      assert forall i :: 0 <= i < |s| ==> Lower(s)[i] == s[i];
    }
  }

  // ---------------------------------------------------------------------------
  // startswith, endswith, in
  // ---------------------------------------------------------------------------

  /** `s.startswith(prefix)`. */
  predicate StartsWith(s: string, prefix: string)
  {
    |prefix| <= |s| && s[..|prefix|] == prefix
  }

  /** `s.endswith(suffix)`. */
  predicate EndsWith(s: string, suffix: string)
  {
    |suffix| <= |s| && s[|s| - |suffix|..] == suffix
  }

  /** `sub` occurs in `s` at offset `i`. */
  predicate OccursAt(s: string, sub: string, i: int)
  {
    0 <= i <= |s| - |sub| && s[i..i + |sub|] == sub
  }

  /** `sub in s`: some position of `s` starts with `sub`. */
  predicate Contains(s: string, sub: string)
    decreases |s|
  {
    StartsWith(s, sub) || (s != [] && Contains(s[1..], sub))
  }

  /** `Contains` is the substring test: it holds exactly when `sub` occurs at some offset. */
  lemma {:induction false} ContainsOccurs(s: string, sub: string)
    ensures Contains(s, sub) <==> exists i :: OccursAt(s, sub, i)
    decreases |s|
  {
    if StartsWith(s, sub) {
      assert OccursAt(s, sub, 0);
    }
    if s != [] {
      ContainsOccurs(s[1..], sub);
      if Contains(s[1..], sub) {
        var i :| OccursAt(s[1..], sub, i);
        assert s[i + 1..i + 1 + |sub|] == s[1..][i..i + |sub|];
        assert OccursAt(s, sub, i + 1);
      }
      if exists i :: OccursAt(s, sub, i) {
        var i :| OccursAt(s, sub, i);
        if i > 0 {
          assert s[1..][i - 1..i - 1 + |sub|] == s[i..i + |sub|];
          assert OccursAt(s[1..], sub, i - 1);
        }
      }
    }
  }

  /** A string in which the first character of `sub` never appears does not contain `sub`. */
  lemma {:induction false} ContainsNeedsFirstChar(s: string, sub: string)
    requires sub != []
    requires forall i :: 0 <= i < |s| ==> s[i] != sub[0]
    ensures !Contains(s, sub)
    decreases |s|
  {
    if s != [] {
      assert !StartsWith(s, sub) by {
        if |sub| <= |s| {
          assert s[..|sub|][0] == s[0];
        }
      }
      ContainsNeedsFirstChar(s[1..], sub);
    }
  }

  // ---------------------------------------------------------------------------
  // split(sep) and its inverse
  // ---------------------------------------------------------------------------

  /**
   * Splits `s` at every character in `seps`, keeping empty pieces: with one
   * separator `c` this is Python's `s.split(c)`.
   */
  function Split(s: string, seps: set<char>): (r: seq<string>)
    ensures |r| >= 1
    ensures forall i :: 0 <= i < |r| ==> NoneIn(r[i], seps)
    decreases |s|
  {
    if s == [] then [""]
    else if s[0] in seps then [""] + Split(s[1..], seps)
    else
      var rest := Split(s[1..], seps);
      [[s[0]] + rest[0]] + rest[1..]
  }

  /** `c.join(pieces)`. */
  function Join(pieces: seq<string>, c: char): string
  {
    if |pieces| == 0 then ""
    else if |pieces| == 1 then pieces[0]
    else pieces[0] + [c] + Join(pieces[1..], c)
  }

  /** Splitting at `c` and joining with `c` gives the original string back. */
  lemma {:induction false} JoinSplit(s: string, c: char)
    ensures Join(Split(s, {c}), c) == s
    decreases |s|
  {
    if s != [] {
      var rest := Split(s[1..], {c});
      JoinSplit(s[1..], c);
      if s[0] == c {
        assert Split(s, {c}) == [""] + rest;
        assert s == [c] + s[1..];
      } else {
        var r := [[s[0]] + rest[0]] + rest[1..];
        assert Split(s, {c}) == r;
        if |rest| == 1 {
          assert Join(r, c) == [s[0]] + rest[0];
        } else {
          assert r[1..] == rest[1..];
          assert Join(r, c) == [s[0]] + rest[0] + [c] + Join(rest[1..], c);
          assert Join(rest, c) == rest[0] + [c] + Join(rest[1..], c);
        }
      }
    }
  }

  /** A separator ends the piece before it: splitting `x + [c] + y` yields `x` and then the pieces of `y`. */
  lemma {:induction false} SplitAtSeparator(x: string, c: char, y: string, seps: set<char>)
    requires NoneIn(x, seps) && c in seps
    ensures Split(x + [c] + y, seps) == [x] + Split(y, seps)
    decreases |x|
  {
    var s := x + [c] + y;
    if x == [] {
      assert s[1..] == y;
    } else {
      assert s[1..] == x[1..] + [c] + y;
      SplitAtSeparator(x[1..], c, y, seps);
      assert [x[0]] + x[1..] == x;
    }
  }

  // ---------------------------------------------------------------------------
  // split() into words
  // ---------------------------------------------------------------------------

  /** The length of the run of non-whitespace characters that starts `s`. */
  function WordLen(s: string): (n: nat)
    ensures n <= |s| && NoneIn(s[..n], WhiteSpace)
    ensures n == |s| || s[n] in WhiteSpace
    decreases |s|
  {
    if s == [] || s[0] in WhiteSpace then 0 else 1 + WordLen(s[1..])
  }

  /** Python's argument-free `s.split()`: the maximal runs of non-whitespace characters, in order. */
  function Words(s: string): (r: seq<string>)
    ensures forall i :: 0 <= i < |r| ==> r[i] != [] && NoneIn(r[i], WhiteSpace)
    decreases |s|
  {
    if s == [] then []
    else if s[0] in WhiteSpace then Words(s[1..])
    else
      var n := WordLen(s);
      [s[..n]] + Words(s[n..])
  }

  /** The words laid end to end. */
  function Concat(ws: seq<string>): string
  {
    if ws == [] then "" else ws[0] + Concat(ws[1..])
  }

  /** `s` with every whitespace character removed. */
  function RemoveSpace(s: string): string
  {
    if s == [] then "" else Kept(s[0]) + RemoveSpace(s[1..])
  }

  /** A character as `RemoveSpace` keeps it: dropped when it is whitespace. */
  function Kept(c: char): string
  {
    if c in WhiteSpace then "" else [c]
  }

  /** Removing whitespace distributes over concatenation. */
  lemma {:induction false} RemoveSpaceAppend(a: string, b: string)
    ensures RemoveSpace(a + b) == RemoveSpace(a) + RemoveSpace(b)
    decreases |a|
  {
    if a == [] {
      assert a + b == b;
    } else {
      assert (a + b)[0] == a[0];
      assert (a + b)[1..] == a[1..] + b;
      RemoveSpaceAppend(a[1..], b);
      assert RemoveSpace(a + b) == Kept(a[0]) + (RemoveSpace(a[1..]) + RemoveSpace(b));
    }
  }

  /** A whitespace-free string loses nothing. */
  lemma {:induction false} RemoveSpaceOfWord(a: string)
    requires NoneIn(a, WhiteSpace)
    ensures RemoveSpace(a) == a
    decreases |a|
  {
    if a != [] {
      RemoveSpaceOfWord(a[1..]);
    }
  }

  /** An all-whitespace string loses everything. */
  lemma {:induction false} RemoveSpaceOfBlank(a: string)
    requires AllIn(a, WhiteSpace)
    ensures RemoveSpace(a) == ""
    decreases |a|
  {
    if a != [] {
      RemoveSpaceOfBlank(a[1..]);
    }
  }

  /** Splitting into words loses no text: the words together are the input without its whitespace. */
  lemma {:induction false} WordsKeepText(s: string)
    ensures Concat(Words(s)) == RemoveSpace(s)
    decreases |s|
  {
    if s != [] {
      if s[0] in WhiteSpace {
        WordsKeepText(s[1..]);
      } else {
        var n := WordLen(s);
        WordsKeepText(s[n..]);
        assert s == s[..n] + s[n..];
        RemoveSpaceAppend(s[..n], s[n..]);
        RemoveSpaceOfWord(s[..n]);
      }
    }
  }

  /** A word followed by a whitespace character is exactly as long as the word. */
  lemma {:induction false} WordLenUpToSpace(w: string, c: char, rest: string)
    requires NoneIn(w, WhiteSpace) && c in WhiteSpace
    ensures WordLen(w + [c] + rest) == |w|
    decreases |w|
  {
    if w != [] {
      assert (w + [c] + rest)[1..] == w[1..] + [c] + rest;
      WordLenUpToSpace(w[1..], c, rest);
    }
  }

  /** Whitespace-free, non-empty words joined by single spaces split back into the same words. */
  lemma {:induction false} WordsOfJoin(ws: seq<string>)
    requires forall i :: 0 <= i < |ws| ==> ws[i] != [] && NoneIn(ws[i], WhiteSpace)
    ensures Words(Join(ws, ' ')) == ws
    decreases |ws|
  {
    if |ws| == 1 {
      var w := ws[0];
      assert Join(ws, ' ') == w;
      assert WordLen(w) == |w|;
      assert w[..|w|] == w;
      assert w[|w|..] == [];
      assert ws == [w];
    } else if |ws| > 1 {
      var w := ws[0];
      var tail := Join(ws[1..], ' ');
      var s := w + [' '] + tail;
      assert Join(ws, ' ') == s;
      var n := WordLen(s);
      WordLenUpToSpace(w, ' ', tail);
      assert s[..n] == w;
      assert s[n..][1..] == tail;
      WordsOfJoin(ws[1..]);
      assert ws == [w] + ws[1..];
    }
  }

  /** `gaps[0] + ws[0] + gaps[1] + ... + ws[n - 1] + gaps[n]`: words with the text between them. */
  function Interleave(gaps: seq<string>, ws: seq<string>): string
    requires |gaps| == |ws| + 1
    decreases |ws|
  {
    if ws == [] then gaps[0] else gaps[0] + ws[0] + Interleave(gaps[1..], ws[1..])
  }

  /**
   * `gaps` is a valid layout of whitespace around `|gaps| - 1` words: every
   * gap is all whitespace, and every gap between two words is non-empty.
   */
  predicate SpaceGaps(gaps: seq<string>)
  {
    && (forall k :: 0 <= k < |gaps| ==> AllIn(gaps[k], WhiteSpace))
    && (forall k :: 0 < k < |gaps| - 1 ==> gaps[k] != [])
  }

  /**
   * The words are the maximal runs of non-whitespace: the input is exactly
   * its words with whitespace gaps between them, every inner gap non-empty
   * and the two outer gaps possibly empty.
   */
  lemma {:induction false} WordsGaps(s: string) returns (gaps: seq<string>)
    ensures |gaps| == |Words(s)| + 1
    ensures SpaceGaps(gaps)
    ensures s == Interleave(gaps, Words(s))
    decreases |s|
  {
    if s == [] {
      gaps := [""];
    } else if s[0] in WhiteSpace {
      var g := WordsGaps(s[1..]);
      gaps := GapsConsSpace(s[0], g, Words(s[1..]));
      assert s == [s[0]] + s[1..];
    } else {
      var n := WordLen(s);
      var t := s[n..];
      var g := WordsGaps(t);
      var wt := Words(t);
      gaps := GapsConsWord(s[..n], g, wt);
      assert s == s[..n] + t;
    }
  }

  /** A whitespace character in front joins the first gap. */
  lemma GapsConsSpace(c: char, g: seq<string>, ws: seq<string>) returns (gaps: seq<string>)
    requires c in WhiteSpace && |g| == |ws| + 1 && SpaceGaps(g)
    ensures |gaps| == |ws| + 1 && SpaceGaps(gaps)
    ensures Interleave(gaps, ws) == [c] + Interleave(g, ws)
  {
    gaps := [[c] + g[0]] + g[1..];
    assert gaps[1..] == g[1..];
    assert AllIn(gaps[0], WhiteSpace);
    forall k | 0 < k < |gaps| ensures gaps[k] == g[k] {
    }
    if ws != [] {
      assert Interleave(gaps, ws) == gaps[0] + ws[0] + Interleave(g[1..], ws[1..]);
    }
  }

  /** A word in front adds an empty first gap, provided the text after it starts with whitespace (or has no word). */
  lemma GapsConsWord(w: string, g: seq<string>, ws: seq<string>) returns (gaps: seq<string>)
    requires |g| == |ws| + 1 && SpaceGaps(g)
    requires ws != [] ==> g[0] != []
    ensures |gaps| == |ws| + 2 && SpaceGaps(gaps)
    ensures Interleave(gaps, [w] + ws) == w + Interleave(g, ws)
  {
    gaps := [""] + g;
    assert gaps[1..] == g;
    assert ([w] + ws)[1..] == ws;
    forall k | 0 < k < |gaps| ensures gaps[k] == g[k - 1] {
    }
  }

  /**
   * The converse: any text laid out as non-empty whitespace-free words with
   * whitespace gaps (non-empty between words) splits into exactly those
   * words. With `WordsGaps` this determines `Words` completely.
   */
  lemma {:induction false} WordsOfInterleave(gaps: seq<string>, ws: seq<string>)
    requires |gaps| == |ws| + 1 && SpaceGaps(gaps)
    requires forall i :: 0 <= i < |ws| ==> ws[i] != [] && NoneIn(ws[i], WhiteSpace)
    ensures Words(Interleave(gaps, ws)) == ws
    decreases |ws|
  {
    if ws == [] {
      WordsAfterBlank(gaps[0], "");
      assert gaps[0] + "" == gaps[0];
    } else {
      var rest := Interleave(gaps[1..], ws[1..]);
      assert SpaceGaps(gaps[1..]) by {
        forall k | 0 < k < |gaps[1..]| - 1 ensures gaps[1..][k] != [] {
          assert gaps[1..][k] == gaps[k + 1];
        }
        forall k | 0 <= k < |gaps[1..]| ensures AllIn(gaps[1..][k], WhiteSpace) {
          assert gaps[1..][k] == gaps[k + 1];
        }
      }
      WordsOfInterleave(gaps[1..], ws[1..]);
      if |ws| > 1 {
        assert gaps[1] != [] && AllIn(gaps[1], WhiteSpace);
        assert rest == gaps[1] + (ws[1] + Interleave(gaps[2..], ws[2..]));
        assert rest[0] == gaps[1][0];
      } else {
        assert rest == gaps[1];
        assert AllIn(gaps[1], WhiteSpace);
      }
      WordsOfWord(ws[0], rest);
      assert Interleave(gaps, ws) == gaps[0] + (ws[0] + rest);
      WordsAfterBlank(gaps[0], ws[0] + rest);
      assert ws == [ws[0]] + ws[1..];
    }
  }

  /** Text in front of the words joins the first gap. */
  lemma InterleaveFront(pre: string, g: seq<string>, ws: seq<string>)
    requires |g| == |ws| + 1
    ensures Interleave([pre + g[0]] + g[1..], ws) == pre + Interleave(g, ws)
  {
    var h := [pre + g[0]] + g[1..];
    assert h[1..] == g[1..];
  }

  /** Text after the words joins the last gap. */
  lemma {:induction false} InterleaveBack(g: seq<string>, ws: seq<string>, post: string)
    requires |g| == |ws| + 1
    ensures Interleave(g[..|ws|] + [g[|ws|] + post], ws) == Interleave(g, ws) + post
    decreases |ws|
  {
    var h := g[..|ws|] + [g[|ws|] + post];
    if ws == [] {
      assert h == [g[0] + post];
    } else {
      var g', ws' := g[1..], ws[1..];
      InterleaveBack(g', ws', post);
      assert h[0] == g[0];
      assert h[1..] == g'[..|ws'|] + [g'[|ws'|] + post];
      var tail := Interleave(g', ws');
      assert Interleave(h, ws) == g[0] + ws[0] + (tail + post);
      assert Interleave(g, ws) == g[0] + ws[0] + tail;
    }
  }

  /** Two whitespace strings make a whitespace string. */
  lemma AllInAppend(a: string, b: string, cs: set<char>)
    requires AllIn(a, cs) && AllIn(b, cs)
    ensures AllIn(a + b, cs)
  {
    forall i | 0 <= i < |a + b| ensures (a + b)[i] in cs {
      if i >= |a| {
        assert (a + b)[i] == b[i - |a|];
      }
    }
  }

  /** Whitespace around the words widens the two outer gaps. */
  lemma GapsWiden(pre: string, g: seq<string>, ws: seq<string>, post: string) returns (h: seq<string>)
    requires |g| == |ws| + 1 && SpaceGaps(g) && AllIn(pre, WhiteSpace) && AllIn(post, WhiteSpace)
    ensures |h| == |ws| + 1 && SpaceGaps(h)
    ensures Interleave(h, ws) == pre + Interleave(g, ws) + post
  {
    var g1 := [pre + g[0]] + g[1..];
    InterleaveFront(pre, g, ws);
    AllInAppend(pre, g[0], WhiteSpace);
    assert SpaceGaps(g1) by {
      forall k | 0 < k < |g1| ensures g1[k] == g[k] {
      }
    }
    h := g1[..|ws|] + [g1[|ws|] + post];
    InterleaveBack(g1, ws, post);
    AllInAppend(g1[|ws|], post, WhiteSpace);
    assert SpaceGaps(h) by {
      forall k | 0 <= k < |ws| ensures h[k] == g1[k] {
      }
    }
  }

  /** Whitespace around a text adds no word: `(pre + m + post).split() == m.split()`. */
  lemma WordsOfSurrounded(pre: string, m: string, post: string)
    requires AllIn(pre, WhiteSpace) && AllIn(post, WhiteSpace)
    ensures Words(pre + m + post) == Words(m)
  {
    var ws := Words(m);
    var g := WordsGaps(m);
    var h := GapsWiden(pre, g, ws, post);
    WordsOfInterleave(h, ws);
  }

  /** Leading whitespace contributes no word. */
  lemma {:induction false} WordsAfterBlank(a: string, t: string)
    requires AllIn(a, WhiteSpace)
    ensures Words(a + t) == Words(t)
    decreases |a|
  {
    if a == [] {
      assert a + t == t;
    } else {
      assert (a + t)[0] == a[0] && a[0] in WhiteSpace;
      assert (a + t)[1..] == a[1..] + t;
      assert AllIn(a[1..], WhiteSpace) by {
        forall i | 0 <= i < |a[1..]| ensures a[1..][i] in WhiteSpace {
          assert a[1..][i] == a[i + 1];
        }
      }
      WordsAfterBlank(a[1..], t);
      assert Words(a + t) == Words((a + t)[1..]);
    }
  }

  /** A word ended by whitespace or by the end of the text is the first word. */
  lemma WordsOfWord(w: string, rest: string)
    requires w != [] && NoneIn(w, WhiteSpace)
    requires rest == [] || rest[0] in WhiteSpace
    ensures Words(w + rest) == [w] + Words(rest)
  {
    var s := w + rest;
    WordLenOfWord(w, rest);
    assert s[..|w|] == w;
    assert s[|w|..] == rest;
  }

  /** The first word of `w + rest` is `w` when `rest` does not continue it. */
  lemma {:induction false} WordLenOfWord(w: string, rest: string)
    requires NoneIn(w, WhiteSpace)
    requires rest == [] || rest[0] in WhiteSpace
    ensures WordLen(w + rest) == |w|
    decreases |w|
  {
    if w == [] {
      assert w + rest == rest;
    } else {
      assert (w + rest)[1..] == w[1..] + rest;
      WordLenOfWord(w[1..], rest);
    }
  }

  /** The first character of a join is the first character of its first piece. */
  lemma JoinStart(ws: seq<string>, c: char)
    requires |ws| >= 1 && ws[0] != []
    ensures Join(ws, c) != [] && Join(ws, c)[0] == ws[0][0]
  {
  }

  /** A join ends with its last piece. */
  lemma {:induction false} JoinEnd(ws: seq<string>, c: char)
    requires |ws| >= 1
    ensures EndsWith(Join(ws, c), ws[|ws| - 1])
    decreases |ws|
  {
    if |ws| > 1 {
      JoinEnd(ws[1..], c);
      var j := Join(ws[1..], c);
      var s := ws[0] + [c] + j;
      assert s[|s| - |j|..] == j;
    }
  }

  /** A string ending with a non-empty suffix ends with the suffix's last character. */
  lemma EndsWithLast(s: string, suffix: string)
    requires suffix != [] && EndsWith(s, suffix)
    ensures s != [] && s[|s| - 1] == suffix[|suffix| - 1]
  {
    assert s[|s| - |suffix|..][|suffix| - 1] == s[|s| - 1];
  }

  /** A non-empty string with no whitespace at either end is its own `strip()`. */
  lemma EdgesUnstripped(s: string)
    requires s != [] && s[0] !in WhiteSpace && s[|s| - 1] !in WhiteSpace
    ensures Strip(s) == s
  {
    StripCharsUnchanged(s, WhiteSpace);
  }
}
