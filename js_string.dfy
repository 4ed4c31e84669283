/** The JavaScript string built-ins the core relies on (`trim`, global `replace`
    of a literal, `includes`, `split`, `join`, number-to-string), over `seq<char>`. */
module JsString {

  import opened Types

  /** The characters `String.prototype.trim` removes: the ECMAScript
      WhiteSpace and LineTerminator code points. */
  predicate IsSpace(c: char) {
    || c == ' ' || ('\t' <= c <= '\r') || c == '\U{A0}' || c == '\U{1680}'
    || ('\U{2000}' <= c <= '\U{200A}') || c == '\U{2028}' || c == '\U{2029}'
    || c == '\U{202F}' || c == '\U{205F}' || c == '\U{3000}' || c == '\U{FEFF}'
  }

  predicate AllSpace(s: string) {
    forall i :: 0 <= i < |s| ==> IsSpace(s[i])
  }

  /** Neither end of `s` is whitespace. */
  predicate IsTrimmed(s: string) {
    s == [] || (!IsSpace(s[0]) && !IsSpace(s[|s| - 1]))
  }

  /** `String.prototype.trimStart`. */
  function TrimStart(s: string): string {
    if |s| > 0 && IsSpace(s[0]) then TrimStart(s[1..]) else s
  }

  /** `String.prototype.trimEnd`. */
  function TrimEnd(s: string): string {
    if |s| > 0 && IsSpace(s[|s| - 1]) then TrimEnd(s[..|s| - 1]) else s
  }

  /** `String.prototype.trim`. */
  function Trim(s: string): string {
    TrimEnd(TrimStart(s))
  }

  /** `trimStart` drops exactly the leading whitespace: what remains is a
      suffix that does not start with whitespace. */
  lemma {:induction false} TrimStartSpec(s: string)
    ensures var r := TrimStart(s);
      && |r| <= |s| && r == s[|s| - |r|..]
      && AllSpace(s[..|s| - |r|])
      && (r == [] || !IsSpace(r[0]))
  {
    if |s| > 0 && IsSpace(s[0]) {
      TrimStartSpec(s[1..]);
      var r := TrimStart(s[1..]);
      assert s[1..][..|s| - 1 - |r|] == s[1..|s| - |r|];
    }
  }

  /** `trimEnd` drops exactly the trailing whitespace: what remains is a
      prefix that does not end with whitespace. */
  lemma {:induction false} TrimEndSpec(s: string)
    ensures var r := TrimEnd(s);
      && |r| <= |s| && r == s[..|r|]
      && AllSpace(s[|r|..])
      && (r == [] || !IsSpace(r[|r| - 1]))
  {
    if |s| > 0 && IsSpace(s[|s| - 1]) {
      TrimEndSpec(s[..|s| - 1]);
      var r := TrimEnd(s[..|s| - 1]);
      assert s[..|s| - 1][|r|..] + [s[|s| - 1]] == s[|r|..];
    }
  }

  /** The trimmed string is the slice of `s` that starts after the leading
      whitespace. */
  lemma TrimSlice(s: string)
    ensures var i := |s| - |TrimStart(s)|;
      && 0 <= i && i + |Trim(s)| <= |s|
      && Trim(s) == s[i..i + |Trim(s)|]
  {
    TrimStartSpec(s);
    TrimEndSpec(TrimStart(s));
  }

  /** Neither end of the trimmed string is whitespace; it is empty exactly for
      an all-whitespace input, and an already trimmed input comes back unchanged. */
  lemma TrimSpec(s: string)
    ensures IsTrimmed(Trim(s))
    ensures IsTrimmed(s) ==> Trim(s) == s
    ensures Trim(s) == [] <==> AllSpace(s)
  {
    var t := TrimStart(s);
    TrimStartSpec(s);
    TrimEndSpec(t);
    var r := TrimEnd(t);
    if r == [] {
      assert s[..|s| - |t|] == s;
    } else {
      assert r[0] == t[0];
    }
  }

  /** Trim removes exactly the padding around a trimmed, non-empty core. */
  lemma {:induction false} TrimPadded(a: string, body: string, b: string)
    requires AllSpace(a) && AllSpace(b)
    requires body != [] && IsTrimmed(body)
    ensures Trim(a + body + b) == body
  {
    TrimStartPadded(a, body + b);
    assert a + body + b == a + (body + b);
    TrimEndPadded(body, b);
  }

  lemma {:induction false} TrimStartPadded(a: string, t: string)
    requires AllSpace(a)
    requires t != [] && !IsSpace(t[0])
    ensures TrimStart(a + t) == t
  {
    if a != [] {
      assert (a + t)[1..] == a[1..] + t;
      TrimStartPadded(a[1..], t);
    } else {
      assert a + t == t;
    }
  }

  lemma {:induction false} TrimEndPadded(t: string, b: string)
    requires AllSpace(b)
    requires t != [] && !IsSpace(t[|t| - 1])
    ensures TrimEnd(t + b) == t
  {
    if b != [] {
      assert (t + b)[..|t + b| - 1] == t + b[..|b| - 1];
      TrimEndPadded(t, b[..|b| - 1]);
    } else {
      assert t + b == t;
    }
  }

  predicate StartsWith(s: string, p: string) {
    |p| <= |s| && s[..|p|] == p
  }

  /** `s.includes(p)`: some suffix of `s` starts with `p`. */
  predicate Contains(s: string, p: string)
    decreases |s|
  {
    StartsWith(s, p) || (|s| > 0 && Contains(s[1..], p))
  }

  lemma {:induction false} ShortNeverContains(s: string, p: string)
    requires |s| < |p|
    ensures !Contains(s, p)
  {
    if |s| > 0 { ShortNeverContains(s[1..], p); }
  }

  /** An occurrence inside a slice is an occurrence in the whole string. */
  lemma {:induction false} ContainsInSlice(s: string, i: nat, j: nat, p: string)
    requires i <= j <= |s|
    requires Contains(s[i..j], p)
    ensures Contains(s, p)
  {
    assert s[i..j] == s[i..][..j - i];
    ContainsInPrefix(s[i..], j - i, p);
    ContainsInSuffix(s, i, p);
  }

  lemma {:induction false} ContainsInPrefix(s: string, j: nat, p: string)
    requires j <= |s|
    requires Contains(s[..j], p)
    ensures Contains(s, p)
  {
    if StartsWith(s[..j], p) {
      assert s[..j][..|p|] == s[..|p|];
    } else {
      assert s[..j][1..] == s[1..][..j - 1];
      ContainsInPrefix(s[1..], j - 1, p);
    }
  }

  lemma {:induction false} ContainsInSuffix(s: string, i: nat, p: string)
    requires i <= |s|
    requires Contains(s[i..], p)
    ensures Contains(s, p)
  {
    if i > 0 {
      assert s[i..] == s[1..][i - 1..];
      ContainsInSuffix(s[1..], i - 1, p);
    } else {
      assert s[i..] == s;
    }
  }

  /** A pattern whose first character never occurs cannot occur. */
  lemma {:induction false} AbsentFirstChar(s: string, p: string)
    requires |p| > 0
    requires forall i :: 0 <= i < |s| ==> s[i] != p[0]
    ensures !Contains(s, p)
  {
    if |s| > 0 {
      assert |p| <= |s| ==> s[..|p|][0] == s[0];
      AbsentFirstChar(s[1..], p);
    }
  }

  /** Every character of `s` is an occurrence of itself. */
  lemma CharOccurs(s: string, i: nat)
    requires i < |s|
    ensures Contains(s, [s[i]])
  {
    assert StartsWith(s[i..i + 1], [s[i]]);
    ContainsInSlice(s, i, i + 1, [s[i]]);
  }

  /** A string holds a one-character pattern exactly when it holds that character. */
  lemma ContainsCharIff(s: string, c: char)
    ensures Contains(s, [c]) <==> exists i :: 0 <= i < |s| && s[i] == c
  {
    if exists i :: 0 <= i < |s| && s[i] == c {
      var i :| 0 <= i < |s| && s[i] == c;
      CharOccurs(s, i);
    } else {
      AbsentFirstChar(s, [c]);
    }
  }

  /** An occurrence of `p + q` is an occurrence of `p`. */
  lemma {:induction false} ContainsLongerPattern(s: string, p: string, q: string)
    requires Contains(s, p + q)
    ensures Contains(s, p)
  {
    if StartsWith(s, p + q) {
      assert s[..|p|] == (p + q)[..|p|] == p;
    } else {
      ContainsLongerPattern(s[1..], p, q);
    }
  }

  /** Trimming a string cannot create an occurrence. */
  lemma TrimKeepsAbsence(s: string, p: string)
    requires !Contains(s, p)
    ensures !Contains(Trim(s), p)
  {
    var r := Trim(s);
    TrimSlice(s);
    if Contains(r, p) {
      var i := |s| - |TrimStart(s)|;
      ContainsInSlice(s, i, i + |r|, p);
    }
  }

  /** `s.replace(/pat/g, rep)` for a literal pattern: a left-to-right scan that
      replaces each non-overlapping occurrence of `pat` by `rep`. */
  function ReplaceAll(s: string, pat: string, rep: string): (r: string)
    requires |pat| > 0
    ensures !Contains(s, pat) ==> r == s
    ensures rep == [] ==> |r| <= |s|
    decreases |s|
  {
    if |s| < |pat| then s
    else if s[..|pat|] == pat then rep + ReplaceAll(s[|pat|..], pat, rep)
    else [s[0]] + ReplaceAll(s[1..], pat, rep)
  }

  /** A leading occurrence is replaced and the scan resumes after it. */
  lemma ReplaceAllLeading(pat: string, t: string, rep: string)
    requires |pat| > 0
    ensures ReplaceAll(pat + t, pat, rep) == rep + ReplaceAll(t, pat, rep)
  {
    assert (pat + t)[..|pat|] == pat;
    assert (pat + t)[|pat|..] == t;
  }

  /** Text that never shows the pattern's first character is copied unchanged. */
  lemma {:induction false} ReplaceAllSkips(b: string, t: string, pat: string, rep: string)
    requires |pat| > 0
    requires forall i :: 0 <= i < |b| ==> b[i] != pat[0]
    ensures ReplaceAll(b + t, pat, rep) == b + ReplaceAll(t, pat, rep)
  {
    if b == [] {
      assert b + t == t;
    } else if |b + t| < |pat| {
      ShortNeverContains(t, pat);
    } else {
      assert (b + t)[..|pat|][0] == b[0];
      assert (b + t)[1..] == b[1..] + t;
      ReplaceAllSkips(b[1..], t, pat, rep);
    }
  }

  /** `s.indexOf(p)` when it is not -1. */
  function IndexOf(s: string, p: string): (r: Option<nat>)
    ensures r.None? <==> !Contains(s, p)
    ensures r.Some? ==> r.value + |p| <= |s| && s[r.value..r.value + |p|] == p
    decreases |s|
  {
    if StartsWith(s, p) then Some(0)
    else if |s| == 0 then None
    else
      match IndexOf(s[1..], p)
      case None => None
      case Some(i) =>
        assert s[1..][i..i + |p|] == s[i + 1..i + 1 + |p|];
        Some(i + 1)
  }

  /** Nothing before the first occurrence contains the pattern. */
  lemma {:induction false} IndexOfFirst(s: string, p: string)
    requires |p| > 0 && IndexOf(s, p).Some?
    ensures !Contains(s[..IndexOf(s, p).value], p)
    decreases |s|
  {
    if StartsWith(s, p) {
      assert s[..0] == [];
    } else {
      var i := IndexOf(s[1..], p).value;
      IndexOfFirst(s[1..], p);
      assert s[..i + 1][1..] == s[1..][..i];
      assert |p| <= i + 1 ==> s[..i + 1][..|p|] == s[..|p|];
    }
  }

  /** `ls.join(sep)`. */
  function Join(ls: seq<string>, sep: string): string
  {
    if |ls| == 0 then ""
    else if |ls| == 1 then ls[0]
    else ls[0] + sep + Join(ls[1..], sep)
  }

  /** `s.split(sep)` for a non-empty literal separator: the text before the
      first occurrence, then the split of what follows it. */
  function Split(s: string, sep: string): (r: seq<string>)
    requires |sep| > 0
    ensures |r| >= 1
    decreases |s|
  {
    match IndexOf(s, sep)
    case None => [s]
    case Some(i) => [s[..i]] + Split(s[i + |sep|..], sep)
  }

  /** The pieces join back to `s`. */
  lemma {:induction false} SplitJoinsBack(s: string, sep: string)
    requires |sep| > 0
    ensures Join(Split(s, sep), sep) == s
    decreases |s|
  {
    match IndexOf(s, sep)
    case None =>
    case Some(i) =>
      var rest := Split(s[i + |sep|..], sep);
      SplitJoinsBack(s[i + |sep|..], sep);
      assert ([s[..i]] + rest)[1..] == rest;
      assert s == s[..i] + sep + s[i + |sep|..];
  }

  /** No string of `ls` holds `sep`. */
  predicate NoneContains(ls: seq<string>, sep: string) {
    ls == [] || (!Contains(ls[0], sep) && NoneContains(ls[1..], sep))
  }

  lemma {:induction false} NoneContainsAt(ls: seq<string>, sep: string, k: nat)
    requires NoneContains(ls, sep) && k < |ls|
    ensures !Contains(ls[k], sep)
  {
    if k > 0 {
      NoneContainsAt(ls[1..], sep, k - 1);
    }
  }

  /** No piece holds the separator. */
  lemma {:induction false} SplitPiecesLack(s: string, sep: string)
    requires |sep| > 0
    ensures NoneContains(Split(s, sep), sep)
    decreases |s|
  {
    match IndexOf(s, sep)
    case None =>
    case Some(i) =>
      var head := s[..i];
      var rest := Split(s[i + |sep|..], sep);
      assert !Contains(head, sep) by { IndexOfFirst(s, sep); }
      assert NoneContains(rest, sep) by { SplitPiecesLack(s[i + |sep|..], sep); }
      assert Split(s, sep) == [head] + rest by { SplitAtFirst(s, sep); }
      assert ([head] + rest)[1..] == rest;
  }

  /** The first piece of a split: the text before the first separator, or all of it. */
  lemma SplitFirstPiece(s: string, sep: string)
    requires |sep| > 0
    ensures var piece := Split(s, sep)[0];
      && |piece| <= |s| && piece == s[..|piece|]
      && (|piece| == |s| || StartsWith(s[|piece|..], sep))
  {
    match IndexOf(s, sep)
    case None =>
    case Some(i) =>
      assert s[i..][..|sep|] == s[i..i + |sep|];
  }

  /** One step of the split: the text before the first separator, then the
      split of what follows it. */
  lemma SplitAtFirst(s: string, sep: string)
    requires |sep| > 0 && IndexOf(s, sep).Some?
    ensures var i := IndexOf(s, sep).value;
      Split(s, sep) == [s[..i]] + Split(s[i + |sep|..], sep)
  {
  }

  /** A string holding the separator splits into at least two pieces, the
      second one being the first piece of what follows the first separator. */
  lemma SplitAfterFirst(s: string, sep: string)
    requires |sep| > 0 && IndexOf(s, sep).Some?
    ensures |Split(s, sep)| >= 2
    ensures Split(s, sep)[1] == Split(s[IndexOf(s, sep).value + |sep|..], sep)[0]
  {
    SplitAtFirst(s, sep);
  }

  /** The second piece of a split is the start of the text `rest` after the
      first separator, running up to the next separator or the end. */
  lemma SecondSplitPiece(s: string, sep: string, rest: string)
    requires |sep| > 0 && IndexOf(s, sep).Some?
    requires rest == s[IndexOf(s, sep).value + |sep|..]
    ensures |Split(s, sep)| >= 2
    ensures var piece := Split(s, sep)[1];
      && |piece| <= |rest| && piece == rest[..|piece|]
      && (|piece| == |rest| || StartsWith(rest[|piece|..], sep))
  {
    SplitAfterFirst(s, sep);
    SplitFirstPiece(rest, sep);
  }

  /** Splitting a join on a one-character separator gives back the pieces,
      provided no piece holds that character. */
  lemma {:induction false} SplitJoin(ls: seq<string>, sep: string)
    requires |sep| == 1 && |ls| >= 1
    requires forall k :: 0 <= k < |ls| ==> !Contains(ls[k], sep)
    ensures Split(Join(ls, sep), sep) == ls
  {
    if |ls| == 1 {
    } else {
      var tail := Join(ls[1..], sep);
      FirstSeparator(ls[0], sep, tail);
      var s := ls[0] + sep + tail;
      assert s[..|ls[0]|] == ls[0];
      assert s[|ls[0]| + 1..] == tail;
      SplitJoin(ls[1..], sep);
      assert [ls[0]] + ls[1..] == ls;
    }
  }

  lemma {:induction false} FirstSeparator(a: string, sep: string, b: string)
    requires |sep| == 1 && !Contains(a, sep)
    ensures IndexOf(a + sep + b, sep) == Some(|a|)
  {
    var s := a + sep + b;
    if a == [] {
      assert s[..1] == sep;
    } else {
      assert !StartsWith(a, sep);
      assert s[..1] == a[..1];
      assert s[1..] == a[1..] + sep + b;
      FirstSeparator(a[1..], sep, b);
    }
  }

  predicate Lacks(s: string, c: char) {
    forall i :: 0 <= i < |s| ==> s[i] != c
  }

  lemma LacksConcat(a: string, b: string, c: char)
    requires Lacks(a, c) && Lacks(b, c)
    ensures Lacks(a + b, c)
  {
    forall i | 0 <= i < |a + b| ensures (a + b)[i] != c {
      if i < |a| { assert (a + b)[i] == a[i]; } else { assert (a + b)[i] == b[i - |a|]; }
    }
  }

  predicate IsDigits(s: string) {
    forall i :: 0 <= i < |s| ==> '0' <= s[i] <= '9'
  }

  /** The number a string of decimal digits spells. */
  function DecimalValue(s: string): nat
    requires IsDigits(s)
  {
    if s == [] then 0
    else DecimalValue(s[..|s| - 1]) * 10 + (s[|s| - 1] as int - '0' as int)
  }

  /** A non-negative number in a template literal: its decimal digits,
      which spell the number back. */
  function DecimalString(n: nat): (r: string)
    ensures |r| >= 1 && IsDigits(r)
    ensures DecimalValue(r) == n
  {
    var last := ('0' as int + n % 10) as char;
    if n < 10 then [last]
    else
      var front := DecimalString(n / 10);
      assert (front + [last])[..|front|] == front;
      front + [last]
  }
}
