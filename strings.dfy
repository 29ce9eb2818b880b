// The few operations of Rust's `str` that the parsers and the emitter use:
// `trim`, `starts_with`, `ends_with`, `trim_start_matches`, `trim_matches`,
// `split`, `splitn`, `split_whitespace` and `join`, over `seq<char>`.
module Strings {
  import opened Wrappers

  /** Rust's `char::is_whitespace`: the Unicode White_Space property. */
  predicate IsWhitespace(c: char) {
    c == '\t' || c == '\n' || c == '\U{000B}' || c == '\U{000C}' || c == '\r' || c == ' '
    || c == '\U{0085}' || c == '\U{00A0}' || c == '\U{1680}'
    || ('\U{2000}' <= c <= '\U{200A}')
    || c == '\U{2028}' || c == '\U{2029}' || c == '\U{202F}' || c == '\U{205F}' || c == '\U{3000}'
  }

  predicate AllWhitespace(s: string) {
    forall i :: 0 <= i < |s| ==> IsWhitespace(s[i])
  }

  predicate NoWhitespace(s: string) {
    forall i :: 0 <= i < |s| ==> !IsWhitespace(s[i])
  }

  predicate StartsWith(s: string, prefix: string) {
    |prefix| <= |s| && s[..|prefix|] == prefix
  }

  lemma StartsWithHead(s: string, prefix: string)
    requires |prefix| > 0 && StartsWith(s, prefix)
    ensures s != [] && s[0] == prefix[0]
  {
    assert s[..|prefix|][0] == s[0];
  }

  predicate EndsWith(s: string, suffix: string) {
    |suffix| <= |s| && s[|s| - |suffix|..] == suffix
  }

  /** `sep` occurs in `s` at position `k`. */
  predicate MatchAt(s: string, sep: string, k: nat) {
    k + |sep| <= |s| && s[k..k + |sep|] == sep
  }

  /** `s` contains `sep` as a substring. */
  predicate Contains(s: string, sep: string) {
    exists k: nat | k <= |s| :: MatchAt(s, sep, k)
  }

  /** A string without the character `c` does not contain the one-character string. */
  lemma NoCharNoMatch(s: string, c: char)
    requires c !in s
    ensures !Contains(s, [c])
  {
    forall k: nat | k <= |s|
      ensures !MatchAt(s, [c], k)
    {
      if k + 1 <= |s| {
        assert s[k..k + 1][0] == s[k];
      }
    }
  }

  /** No occurrence of `sep` starts before position `k` of `s`. */
  predicate NoMatchBefore(s: string, sep: string, k: nat) {
    forall j: nat :: j < k ==> !MatchAt(s, sep, j)
  }

  /** `str::trim_start`. */
  function TrimStart(s: string): (r: string)
    ensures |r| <= |s| && r == s[|s| - |r|..]
    ensures r == [] || !IsWhitespace(r[0])
    ensures AllWhitespace(s[..|s| - |r|])
    ensures r == [] <==> AllWhitespace(s)
    decreases |s|
  {
    if s != [] && IsWhitespace(s[0]) then TrimStart(s[1..]) else s
  }

  /** `str::trim_end`. */
  function TrimEnd(s: string): (r: string)
    ensures |r| <= |s| && r == s[..|r|]
    ensures r == [] || !IsWhitespace(r[|r| - 1])
    ensures AllWhitespace(s[|r|..])
    ensures r == [] <==> AllWhitespace(s)
    decreases |s|
  {
    if s != [] && IsWhitespace(s[|s| - 1]) then TrimEnd(s[..|s| - 1]) else s
  }

  /** `r` is the part of `s` at `k` with nothing but whitespace on either side of it. */
  predicate TrimmedAt(s: string, r: string, k: nat) {
    k + |r| <= |s| && r == s[k..k + |r|] && AllWhitespace(s[..k]) && AllWhitespace(s[k + |r|..])
  }

  /** `str::trim`: the longest infix of `s` that neither starts nor ends with whitespace. */
  function Trim(s: string): (r: string)
    ensures r == [] <==> AllWhitespace(s)
    ensures r != [] ==> !IsWhitespace(r[0]) && !IsWhitespace(r[|r| - 1])
  {
    TrimEnd(TrimStart(s))
  }

  /** `trim` takes off only whitespace, and only at the two ends: the result is the part
      of `s` that follows its leading whitespace. */
  lemma TrimInfix(s: string)
    ensures TrimmedAt(s, Trim(s), |s| - |TrimStart(s)|)
  {
    WhitespaceAround(s, TrimStart(s), Trim(s));
  }

  /** Whitespace before a suffix `t` of `s`, and after a prefix `r` of `t`, leaves `r`
      framed by whitespace inside `s`. */
  lemma WhitespaceAround(s: string, t: string, r: string)
    requires |t| <= |s| && t == s[|s| - |t|..] && AllWhitespace(s[..|s| - |t|])
    requires |r| <= |t| && r == t[..|r|] && AllWhitespace(t[|r|..])
    ensures TrimmedAt(s, r, |s| - |t|)
  {
    var k := |s| - |t|;
    assert s[k..k + |r|] == t[..|r|];
    assert s[k + |r|..] == t[|r|..];
  }

  /** A string that starts and ends with a non-whitespace character is its own trim. */
  lemma TrimIdentity(s: string)
    requires s == [] || (!IsWhitespace(s[0]) && !IsWhitespace(s[|s| - 1]))
    ensures Trim(s) == s
  {
  }

  /** `n` copies of `p`, one after another. */
  function Repeat(p: string, n: nat): string {
    if n == 0 then [] else p + Repeat(p, n - 1)
  }

  /** `str::trim_start_matches` with a string pattern: strips every leading repetition. */
  function TrimStartMatches(s: string, prefix: string): (r: string)
    ensures |r| <= |s| && r == s[|s| - |r|..]
    ensures prefix != [] ==> !StartsWith(r, prefix)
    decreases |s|
  {
    if prefix != [] && StartsWith(s, prefix) then TrimStartMatches(s[|prefix|..], prefix) else s
  }

  /** What `trim_start_matches` takes off is whole copies of the prefix. */
  lemma {:induction false} TrimStartMatchesCopies(s: string, prefix: string)
    ensures exists n: nat :: s == Repeat(prefix, n) + TrimStartMatches(s, prefix)
    decreases |s|
  {
    var r := TrimStartMatches(s, prefix);
    if prefix != [] && StartsWith(s, prefix) {
      TrimStartMatchesCopies(s[|prefix|..], prefix);
      var n: nat :| s[|prefix|..] == Repeat(prefix, n) + r;
      RepeatOnceMore(s, prefix, n, r);
    } else {
      assert s == Repeat(prefix, 0) + r;
    }
  }

  lemma RepeatOnceMore(s: string, prefix: string, n: nat, r: string)
    requires StartsWith(s, prefix) && s[|prefix|..] == Repeat(prefix, n) + r
    ensures s == Repeat(prefix, n + 1) + r
  {
    assert s == s[..|prefix|] + s[|prefix|..];
  }

  /** `trim_start_matches` on a string that starts with the prefix exactly once removes
      just that one copy. */
  lemma TrimPrefixOnce(prefix: string, rest: string)
    requires prefix != [] && !StartsWith(rest, prefix)
    ensures TrimStartMatches(prefix + rest, prefix) == rest
  {
    var s := prefix + rest;
    assert StartsWith(s, prefix) by {
      assert s[..|prefix|] == prefix;
    }
    assert s[|prefix|..] == rest;
  }

  /** A line made of a prefix and a rest that does not start like the prefix: it starts
      with the prefix, trimming leaves it as it is, and stripping the prefix gives the rest. */
  lemma PrefixedLine(prefix: string, rest: string)
    requires prefix != [] && !IsWhitespace(prefix[0])
    requires rest != [] && rest[0] != prefix[0] && !IsWhitespace(rest[|rest| - 1])
    ensures var line := prefix + rest;
      line != [] && StartsWith(line, prefix) && Trim(line) == line
      && TrimStartMatches(line, prefix) == rest
  {
    var line := prefix + rest;
    assert line[0] == prefix[0] && line[|line| - 1] == rest[|rest| - 1];
    TrimIdentity(line);
    assert line[..|prefix|] == prefix;
    if StartsWith(rest, prefix) {
      StartsWithHead(rest, prefix);
    }
    TrimPrefixOnce(prefix, rest);
  }

  predicate IsBracket(c: char) { c == '[' || c == ']' }

  predicate AllBrackets(s: string) {
    forall i :: 0 <= i < |s| ==> IsBracket(s[i])
  }

  /** `r` is the part of `s` at `k` with nothing but brackets on either side of it. */
  predicate BracketsTrimmedAt(s: string, r: string, k: nat) {
    k + |r| <= |s| && r == s[k..k + |r|] && AllBrackets(s[..k]) && AllBrackets(s[k + |r|..])
  }

  /** `str::trim_matches(|c| c == '[' || c == ']')`: strips brackets on both ends. */
  function TrimBrackets(s: string): (r: string)
    ensures |r| <= |s|
    ensures r == [] || (!IsBracket(r[0]) && !IsBracket(r[|r| - 1]))
    decreases |s|
  {
    if s == [] then s
    else if IsBracket(s[0]) then TrimBrackets(s[1..])
    else if IsBracket(s[|s| - 1]) then TrimBrackets(s[..|s| - 1])
    else s
  }

  /** `trim_matches` takes off only brackets, and only at the two ends. */
  lemma {:induction false} TrimBracketsInfix(s: string)
    ensures exists k: nat :: BracketsTrimmedAt(s, TrimBrackets(s), k)
    decreases |s|
  {
    var r := TrimBrackets(s);
    if s == [] {
      assert BracketsTrimmedAt(s, r, 0);
    } else if IsBracket(s[0]) {
      TrimBracketsInfix(s[1..]);
      var k: nat :| BracketsTrimmedAt(s[1..], r, k);
      BracketsDropFirst(s, r, k);
    } else if IsBracket(s[|s| - 1]) {
      TrimBracketsInfix(s[..|s| - 1]);
      var k: nat :| BracketsTrimmedAt(s[..|s| - 1], r, k);
      BracketsDropLast(s, r, k);
    } else {
      assert BracketsTrimmedAt(s, r, 0);
    }
  }

  lemma BracketsDropFirst(s: string, r: string, k: nat)
    requires s != [] && IsBracket(s[0]) && BracketsTrimmedAt(s[1..], r, k)
    ensures BracketsTrimmedAt(s, r, k + 1)
  {
    assert s[..k + 1] == [s[0]] + s[1..][..k];
    assert s[k + 1..k + 1 + |r|] == s[1..][k..k + |r|];
    assert s[k + 1 + |r|..] == s[1..][k + |r|..];
  }

  lemma BracketsDropLast(s: string, r: string, k: nat)
    requires s != [] && IsBracket(s[|s| - 1]) && BracketsTrimmedAt(s[..|s| - 1], r, k)
    ensures BracketsTrimmedAt(s, r, k)
  {
    var t := s[..|s| - 1];
    assert s[..k] == t[..k];
    assert s[k..k + |r|] == t[k..k + |r|];
    assert s[k + |r|..] == t[k + |r|..] + [s[|s| - 1]];
  }

  /** A name that neither starts nor ends with whitespace or a bracket, put in brackets:
      a line that is its own trim, starts with `[`, ends with `]` and loses exactly its
      brackets to `trim_matches`. */
  lemma Bracketed(name: string)
    requires name != [] && !IsWhitespace(name[0]) && !IsBracket(name[0])
    requires !IsWhitespace(name[|name| - 1]) && !IsBracket(name[|name| - 1])
    ensures var line := "[" + name + "]";
      Trim(line) == line && !AllWhitespace(line)
      && StartsWith(line, "[") && EndsWith(line, "]") && TrimBrackets(line) == name
  {
    BracketedTrim(name);
    BracketedEnds(name);
    BracketsTrimmed(name);
  }

  lemma BracketedTrim(name: string)
    ensures Trim("[" + name + "]") == "[" + name + "]" && !AllWhitespace("[" + name + "]")
  {
    var line := "[" + name + "]";
    assert !IsWhitespace(line[0]) && !IsWhitespace(line[|line| - 1]);
    TrimIdentity(line);
  }

  lemma BracketedEnds(name: string)
    ensures StartsWith("[" + name + "]", "[") && EndsWith("[" + name + "]", "]")
  {
    var line := "[" + name + "]";
    assert line[..1] == "[" && line[|line| - 1..] == "]";
  }

  lemma BracketsTrimmed(name: string)
    requires name != [] && !IsBracket(name[0]) && !IsBracket(name[|name| - 1])
    ensures TrimBrackets("[" + name + "]") == name
  {
    var line := "[" + name + "]";
    var inner := name + "]";
    assert line[0] == '[' && line[1..] == inner;
    assert TrimBrackets(line) == TrimBrackets(inner);
    assert inner[0] == name[0] && inner[|inner| - 1] == ']' && inner[..|name|] == name;
    assert TrimBrackets(inner) == TrimBrackets(name);
  }

  /** `[ps[0], ps[1], ...].join(sep)`. */
  function Join(ps: seq<string>, sep: string): string
    decreases |ps|
  {
    if |ps| == 0 then ""
    else if |ps| == 1 then ps[0]
    else ps[0] + sep + Join(ps[1..], sep)
  }

  /** A join whose last piece is not empty ends with that piece's last character. */
  lemma {:induction false} JoinLast(ps: seq<string>, sep: string)
    requires |ps| >= 1 && ps[|ps| - 1] != []
    ensures var j := Join(ps, sep); var l := ps[|ps| - 1];
      j != [] && j[|j| - 1] == l[|l| - 1]
    decreases |ps|
  {
    if |ps| > 1 {
      JoinLast(ps[1..], sep);
    }
  }

  /** Each piece with a space in front. */
  function Spaced(ps: seq<string>): (r: seq<string>)
    ensures |r| == |ps|
  {
    seq(|ps|, i requires 0 <= i < |ps| => " " + ps[i])
  }

  lemma SpacedJoinHead(xs: seq<string>)
    requires |xs| >= 1
    ensures Join(Spaced(xs), ",") == " " + Join([xs[0]] + Spaced(xs[1..]), ",")
  {
    var l, r := Spaced(xs), [xs[0]] + Spaced(xs[1..]);
    assert l[0] == " " + xs[0] && r[0] == xs[0];
    if |xs| > 1 {
      assert l[1..] == Spaced(xs[1..]) && r[1..] == Spaced(xs[1..]);
    }
  }

  /** Joining with `", "` is joining with `","` pieces that, after the first, start with
      a space: `str::split(",")` on such a line leaves the space on every later piece. */
  lemma {:induction false} JoinCommaSpace(ps: seq<string>)
    requires |ps| >= 1
    ensures Join(ps, ", ") == Join([ps[0]] + Spaced(ps[1..]), ",")
    decreases |ps|
  {
    var qs := [ps[0]] + Spaced(ps[1..]);
    if |ps| > 1 {
      var rest := ps[1..];
      JoinCommaSpace(rest);
      SpacedJoinHead(rest);
      assert qs[1..] == Spaced(rest);
      assert Join(qs, ",") == ps[0] + "," + (" " + Join([rest[0]] + Spaced(rest[1..]), ","));
    }
  }

  /** A space in front of a word that neither starts nor ends with whitespace is trimmed
      away. */
  lemma TrimSpaced(w: string)
    requires w != [] && !IsWhitespace(w[0]) && !IsWhitespace(w[|w| - 1])
    ensures Trim(" " + w) == w
  {
    assert (" " + w)[1..] == w;
    TrimIdentity(w);
  }

  /** `str::split(sep)` for a non-empty separator: leftmost, non-overlapping matches. */
  function SplitOn(s: string, sep: string): (r: seq<string>)
    requires |sep| > 0
    ensures |r| >= 1
    decreases |s|
  {
    if |s| < |sep| then [s]
    else if s[..|sep|] == sep then [""] + SplitOn(s[|sep|..], sep)
    else
      var rest := SplitOn(s[1..], sep);
      [[s[0]] + rest[0]] + rest[1..]
  }

  /** The number of occurrences `str::split` cuts at. */
  function Occurrences(s: string, sep: string): nat
    requires |sep| > 0
    decreases |s|
  {
    if |s| < |sep| then 0
    else if s[..|sep|] == sep then 1 + Occurrences(s[|sep|..], sep)
    else Occurrences(s[1..], sep)
  }

  lemma JoinConsChar(c: char, ps: seq<string>, sep: string)
    requires |ps| >= 1
    ensures Join([[c] + ps[0]] + ps[1..], sep) == [c] + Join(ps, sep)
  {
    var qs := [[c] + ps[0]] + ps[1..];
    if |ps| > 1 {
      assert qs[1..] == ps[1..];
    }
  }

  /** `split` yields one more piece than there are separators in the string. */
  lemma {:induction false} SplitOnCount(s: string, sep: string)
    requires |sep| > 0
    ensures |SplitOn(s, sep)| == Occurrences(s, sep) + 1
    decreases |s|
  {
    if |s| < |sep| {
    } else if s[..|sep|] == sep {
      SplitOnCount(s[|sep|..], sep);
    } else {
      SplitOnCount(s[1..], sep);
    }
  }

  /** Joining the pieces of `split` with the same separator gives back the string. */
  lemma {:induction false} JoinSplitOn(s: string, sep: string)
    requires |sep| > 0
    ensures Join(SplitOn(s, sep), sep) == s
    decreases |s|
  {
    if |s| < |sep| {
    } else if s[..|sep|] == sep {
      var rest := SplitOn(s[|sep|..], sep);
      JoinSplitOn(s[|sep|..], sep);
      JoinCons("", rest, sep);
      assert s[..0] == "" && s[0..|sep|] == s[..|sep|];
      Rejoin(s, 0, "", sep, s[|sep|..]);
    } else {
      var rest := SplitOn(s[1..], sep);
      JoinSplitOn(s[1..], sep);
      JoinConsChar(s[0], rest, sep);
      assert s == [s[0]] + s[1..];
    }
  }

  /** `split` cuts at the first occurrence of the separator. */
  lemma {:induction false} SplitOnAt(s: string, sep: string, k: nat)
    requires |sep| > 0
    requires NoMatchBefore(s, sep, k) && MatchAt(s, sep, k)
    ensures SplitOn(s, sep) == [s[..k]] + SplitOn(s[k + |sep|..], sep)
    decreases k
  {
    if k == 0 {
      SplitOnAtStart(s, sep);
    } else {
      var t := s[1..];
      MatchShifted(s, sep, k);
      SplitOnAt(t, sep, k - 1);
      SplitOnFirstChar(s, sep);
      assert t[k - 1 + |sep|..] == s[k + |sep|..];
      assert [s[0]] + t[..k - 1] == s[..k];
      FirstPieceCons(s[0], SplitOn(t, sep), t[..k - 1], SplitOn(s[k + |sep|..], sep));
    }
  }

  lemma SplitOnAtStart(s: string, sep: string)
    requires |sep| > 0 && MatchAt(s, sep, 0)
    ensures SplitOn(s, sep) == [s[..0]] + SplitOn(s[|sep|..], sep)
  {
    assert s[..|sep|] == s[0..|sep|];
  }

  lemma FirstPieceCons(c: char, pieces: seq<string>, first: string, rest: seq<string>)
    requires pieces == [first] + rest
    ensures [[c] + pieces[0]] + pieces[1..] == [[c] + first] + rest
  {
  }

  /** Dropping the first character of `s` moves every match one place to the left. */
  lemma MatchShifted(s: string, sep: string, k: nat)
    requires |sep| > 0 && k > 0
    requires NoMatchBefore(s, sep, k) && MatchAt(s, sep, k)
    ensures NoMatchBefore(s[1..], sep, k - 1) && MatchAt(s[1..], sep, k - 1)
  {
    var t := s[1..];
    forall j: nat | j < k - 1
      ensures !MatchAt(t, sep, j)
    {
      assert !MatchAt(s, sep, j + 1);
      assert t[j..j + |sep|] == s[j + 1..j + 1 + |sep|];
    }
    assert t[k - 1..k - 1 + |sep|] == s[k..k + |sep|];
  }

  /** Without a separator at its start, the first piece of `split` begins with the first
      character. */
  lemma SplitOnFirstChar(s: string, sep: string)
    requires |sep| > 0 && |sep| <= |s| && !MatchAt(s, sep, 0)
    ensures SplitOn(s, sep) == [[s[0]] + SplitOn(s[1..], sep)[0]] + SplitOn(s[1..], sep)[1..]
  {
    assert s[0..|sep|] == s[..|sep|];
  }

  /** Without any occurrence of the separator, `split` yields the whole string. */
  lemma {:induction false} SplitOnNone(s: string, sep: string)
    requires |sep| > 0
    requires !Contains(s, sep)
    ensures SplitOn(s, sep) == [s]
    decreases |s|
  {
    if |s| < |sep| {
    } else {
      assert !MatchAt(s, sep, 0);
      var t := s[1..];
      forall j: nat
        ensures !MatchAt(t, sep, j)
      {
        if j + |sep| <= |t| {
          assert t[j..j + |sep|] == s[j + 1..j + 1 + |sep|];
          assert !MatchAt(s, sep, j + 1);
        }
      }
      SplitOnNone(t, sep);
      assert [s[0]] + t == s;
    }
  }

  /** A separator whose first character does not recur in it cannot overlap itself. */
  predicate BorderFree(sep: string) {
    |sep| > 0 && sep[0] !in sep[1..]
  }

  lemma NoMatchInPiece(p: string, sep: string, rest: string)
    requires BorderFree(sep) && !Contains(p, sep)
    ensures NoMatchBefore(p + sep + rest, sep, |p|) && MatchAt(p + sep + rest, sep, |p|)
  {
    var s := p + sep + rest;
    forall j: nat | j < |p|
      ensures !MatchAt(s, sep, j)
    {
      if j + |sep| <= |p| {
        assert s[j..j + |sep|] == p[j..j + |sep|];
        assert !MatchAt(p, sep, j);
      } else {
        var d := |p| - j;
        assert sep[1..][d - 1] == sep[d];
        assert s[j..j + |sep|][d] == sep[0] != sep[d];
      }
    }
    assert s[|p|..|p| + |sep|] == sep;
  }

  /** For a separator that cannot overlap itself, `split` undoes `join` whenever no piece contains it. */
  lemma {:induction false} SplitOnJoin(ps: seq<string>, sep: string)
    requires BorderFree(sep) && |ps| >= 1
    requires forall i :: 0 <= i < |ps| ==> !Contains(ps[i], sep)
    ensures SplitOn(Join(ps, sep), sep) == ps
    decreases |ps|
  {
    if |ps| == 1 {
      SplitOnNone(ps[0], sep);
    } else {
      var rest := Join(ps[1..], sep);
      NoMatchInPiece(ps[0], sep, rest);
      SplitOnAt(ps[0] + sep + rest, sep, |ps[0]|);
      assert (ps[0] + sep + rest)[..|ps[0]|] == ps[0];
      assert (ps[0] + sep + rest)[|ps[0]| + |sep|..] == rest;
      SplitOnJoin(ps[1..], sep);
      assert [ps[0]] + ps[1..] == ps;
    }
  }

  /** The position of the first `c` in `s`, if any. */
  function FindChar(s: string, c: char): (r: Option<nat>)
    ensures r.None? ==> c !in s
    ensures r.Some? ==> r.value < |s| && s[r.value] == c && c !in s[..r.value]
    decreases |s|
  {
    if s == [] then None
    else if s[0] == c then Some(0)
    else match FindChar(s[1..], c)
      case None => None
      case Some(i) => assert s[1..][..i] == s[1..i + 1]; Some(i + 1)
  }

  /** `str::splitn(n, c)`: at most `n` pieces, the last one keeps the rest of the string. */
  function SplitN(s: string, n: nat, c: char): (r: seq<string>)
    requires n >= 1
    ensures 1 <= |r| <= n
    decreases n
  {
    if n == 1 then [s]
    else match FindChar(s, c)
      case None => [s]
      case Some(i) => [s[..i]] + SplitN(s[i + 1..], n - 1, c)
  }

  /** `splitn` cuts its first piece at the first separator. */
  lemma SplitNUnfold(s: string, n: nat, c: char, i: nat)
    requires n >= 2 && FindChar(s, c) == Some(i)
    ensures SplitN(s, n, c) == [s[..i]] + SplitN(s[i + 1..], n - 1, c)
  {
  }

  /** No piece of `splitn` but the last holds the separator, and the last holds none
      unless all `n` pieces were cut. */
  lemma {:induction false} SplitNPieces(s: string, n: nat, c: char)
    requires n >= 1
    ensures var r := SplitN(s, n, c);
      (forall k :: 0 <= k < |r| - 1 ==> c !in r[k]) && (|r| < n ==> c !in r[|r| - 1])
    decreases n
  {
    if n > 1 && FindChar(s, c).Some? {
      var i := FindChar(s, c).value;
      var rest := SplitN(s[i + 1..], n - 1, c);
      SplitNPieces(s[i + 1..], n - 1, c);
      SplitNUnfold(s, n, c, i);
      var r := [s[..i]] + rest;
      forall k | 0 <= k < |r| - 1
        ensures c !in r[k]
      {
        if k > 0 {
          assert r[k] == rest[k - 1];
        }
      }
      assert r[|r| - 1] == rest[|rest| - 1];
    }
  }

  /** Joining the pieces of `splitn` back with the separator gives the original string. */
  lemma {:induction false} JoinSplitN(s: string, n: nat, c: char)
    requires n >= 1
    ensures Join(SplitN(s, n, c), [c]) == s
    decreases n
  {
    if n > 1 && FindChar(s, c).Some? {
      var i := FindChar(s, c).value;
      var rest := SplitN(s[i + 1..], n - 1, c);
      JoinSplitN(s[i + 1..], n - 1, c);
      SplitNUnfold(s, n, c, i);
      JoinCons(s[..i], rest, [c]);
      assert s[i..i + 1] == [c];
      Rejoin(s, i, s[..i], [c], s[i + 1..]);
    }
  }

  lemma JoinCons(p: string, ps: seq<string>, sep: string)
    requires |ps| >= 1
    ensures Join([p] + ps, sep) == p + sep + Join(ps, sep)
  {
    assert ([p] + ps)[1..] == ps;
  }

  /** A string is its part before `k`, the separator found at `k`, and the rest. */
  lemma Rejoin(s: string, k: nat, before: string, sep: string, after: string)
    requires k + |sep| <= |s| && s[..k] == before && s[k..k + |sep|] == sep && s[k + |sep|..] == after
    ensures s == before + sep + after
  {
    assert s == s[..k] + s[k..k + |sep|] + s[k + |sep|..];
  }

  /** `splitn` into exactly as many pieces as were joined recovers the pieces,
      provided no piece but the last contains the separator. */
  lemma {:induction false} SplitNJoin(ps: seq<string>, c: char)
    requires |ps| >= 1
    requires forall i :: 0 <= i < |ps| - 1 ==> c !in ps[i]
    ensures SplitN(Join(ps, [c]), |ps|, c) == ps
    decreases |ps|
  {
    if |ps| > 1 {
      var rest := Join(ps[1..], [c]);
      var s := ps[0] + [c] + rest;
      assert s[|ps[0]|] == c;
      assert s[..|ps[0]|] == ps[0];
      FindCharFirst(s, c, |ps[0]|);
      SplitNUnfold(s, |ps|, c, |ps[0]|);
      assert s[|ps[0]| + 1..] == rest;
      SplitNJoin(ps[1..], c);
      assert [ps[0]] + ps[1..] == ps;
    }
  }

  lemma FindCharFirst(s: string, c: char, i: nat)
    requires i < |s| && s[i] == c && c !in s[..i]
    ensures FindChar(s, c) == Some(i)
  {
    var r := FindChar(s, c);
    assert r.Some? by { assert s[i] in s; }
    var j := r.value;
    assert forall k :: 0 <= k < i ==> s[..i][k] == s[k];
    assert forall k :: 0 <= k < j ==> s[..j][k] == s[k];
  }

  /** A character in neither the pieces nor the separator is not in their join. */
  lemma {:induction false} JoinWithout(ps: seq<string>, sep: string, c: char)
    requires c !in sep && forall i :: 0 <= i < |ps| ==> c !in ps[i]
    ensures c !in Join(ps, sep)
    decreases |ps|
  {
    if |ps| > 1 {
      JoinWithout(ps[1..], sep, c);
    }
  }

  /** A line as `BufRead::lines` hands it out: without the `\r` of a `\r\n` ending. */
  function StripCr(line: string): (r: string)
    ensures |line| - 1 <= |r| <= |line| && r == line[..|r|]
    ensures |r| < |line| <==> line != [] && line[|line| - 1] == '\r'
  {
    if line != [] && line[|line| - 1] == '\r' then line[..|line| - 1] else line
  }

  /** `BufRead::lines`: the text cut at every `\n`, each line without its `\n` and without
      the `\r` of a `\r\n`; what follows the last `\n` is a line, kept as it is, only when
      it is not empty. */
  function Lines(s: string): (r: seq<string>)
    ensures r == [] <==> s == []
    ensures forall i :: 0 <= i < |r| ==> '\n' !in r[i]
    decreases |s|
  {
    match FindChar(s, '\n')
    case None => if s == [] then [] else [s]
    case Some(i) =>
      var rest := Lines(s[i + 1..]);
      assert forall j :: 0 <= j < |StripCr(s[..i])| ==> StripCr(s[..i])[j] == s[j];
      [StripCr(s[..i])] + rest
  }

  /** Text with no `\n` left is one last line, a trailing `\r` included. */
  lemma LinesUnterminated(s: string)
    requires s != [] && '\n' !in s
    ensures Lines(s) == [s]
  {
  }

  /** A line ended by `\r\n` loses both characters. */
  lemma LinesCrLf(l: string, rest: string)
    requires '\n' !in l
    ensures Lines(l + "\r\n" + rest) == [l] + Lines(rest)
  {
    var s := l + "\r\n" + rest;
    assert s[|l| + 1] == '\n' && s[..|l| + 1] == l + "\r" && s[|l| + 2..] == rest;
    FindCharFirst(s, '\n', |l| + 1);
    assert (l + "\r")[..|l|] == l;
  }

  /** A line that `lines` gives back unchanged: no `\n` in it and no `\r` at its end. */
  predicate PlainLine(l: string) {
    '\n' !in l && (l == [] || l[|l| - 1] != '\r')
  }

  /** A plain line followed by a newline is the first line of the text. */
  lemma LinesCons(l: string, rest: string)
    requires PlainLine(l)
    ensures Lines(l + "\n" + rest) == [l] + Lines(rest)
  {
    var s := l + "\n" + rest;
    assert s[|l|] == '\n' && s[..|l|] == l && s[|l| + 1..] == rest;
    FindCharFirst(s, '\n', |l|);
  }

  /** The length of the run of non-whitespace characters that begins `s`. */
  function TokenLength(s: string): (n: nat)
    ensures 0 < n <= |s| || (n == 0 && (s == [] || IsWhitespace(s[0])))
    ensures NoWhitespace(s[..n]) && (n == |s| || IsWhitespace(s[n]))
    decreases |s|
  {
    if s == [] || IsWhitespace(s[0]) then 0
    else
      var n := 1 + TokenLength(s[1..]);
      assert s[..n] == [s[0]] + s[1..][..n - 1];
      n
  }

  /** `str::split_whitespace`: the maximal runs of non-whitespace characters. */
  function SplitWhitespace(s: string): (r: seq<string>)
    decreases |s|
  {
    if s == [] then []
    else if IsWhitespace(s[0]) then SplitWhitespace(s[1..])
    else
      var n := TokenLength(s);
      [s[..n]] + SplitWhitespace(s[n..])
  }

  /** The pieces of `split_whitespace` are non-empty and hold no whitespace. */
  lemma {:induction false} SplitWhitespaceTokens(s: string)
    ensures forall i :: 0 <= i < |SplitWhitespace(s)| ==>
      SplitWhitespace(s)[i] != [] && NoWhitespace(SplitWhitespace(s)[i])
    decreases |s|
  {
    if s != [] {
      SplitWhitespaceTokens(s[1..]);
      if !IsWhitespace(s[0]) {
        var n := TokenLength(s);
        SplitWhitespaceTokens(s[n..]);
      }
    }
  }

  lemma TokenLengthOf(t: string, rest: string)
    requires NoWhitespace(t)
    requires rest == [] || IsWhitespace(rest[0])
    ensures TokenLength(t + rest) == |t|
    decreases |t|
  {
    if t != [] {
      assert (t + rest)[1..] == t[1..] + rest;
      TokenLengthOf(t[1..], rest);
    }
  }

  /** Splitting on whitespace undoes joining non-empty whitespace-free tokens with a space. */
  lemma {:induction false} SplitWhitespaceJoin(ts: seq<string>)
    requires forall i :: 0 <= i < |ts| ==> ts[i] != [] && NoWhitespace(ts[i])
    ensures SplitWhitespace(Join(ts, " ")) == ts
    decreases |ts|
  {
    if |ts| == 0 {
    } else if |ts| == 1 {
      TokenLengthOf(ts[0], "");
      assert ts[0] + "" == ts[0];
      assert ts[0][|ts[0]|..] == [];
    } else {
      var rest := Join(ts[1..], " ");
      var s := ts[0] + " " + rest;
      assert s == ts[0] + (" " + rest);
      TokenLengthOf(ts[0], " " + rest);
      assert s[..|ts[0]|] == ts[0];
      assert s[|ts[0]|..] == " " + rest;
      assert (" " + rest)[1..] == rest;
      SplitWhitespaceJoin(ts[1..]);
      assert [ts[0]] + ts[1..] == ts;
    }
  }
}
