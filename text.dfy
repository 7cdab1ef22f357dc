/** The JavaScript string primitives the source relies on, as total
    functions on `seq<char>`: `trim`, `toLowerCase`, `includes`, `indexOf`,
    `split`/`join`, number-to-string conversion, `padStart`, and
    `replace` with a global literal pattern. */
module Text {

  /** The characters `String.prototype.trim` removes: the ECMAScript
      WhiteSpace and LineTerminator code points. */
  predicate IsJsWhitespace(c: char) {
    c == '\t' || c == '\n' || c == '\U{000B}' || c == '\U{000C}' || c == '\r'
    || c == ' ' || c == '\U{00A0}' || c == '\U{1680}'
    || ('\U{2000}' <= c <= '\U{200A}')
    || c == '\U{2028}' || c == '\U{2029}' || c == '\U{202F}' || c == '\U{205F}'
    || c == '\U{3000}' || c == '\U{FEFF}'
  }

  /** Leading whitespace removed: a suffix of `s` that starts with a
      non-whitespace character (and, by `TrimStartCuts`, is preceded in `s`
      only by whitespace). */
  function TrimStart(s: string): (r: string)
    ensures |r| <= |s| && r == s[|s| - |r|..]
    ensures r != [] ==> !IsJsWhitespace(r[0])
    decreases |s|
  {
    if s != [] && IsJsWhitespace(s[0]) then TrimStart(s[1..]) else s
  }

  lemma {:induction false} TrimStartCuts(s: string)
    ensures forall i :: 0 <= i < |s| - |TrimStart(s)| ==> IsJsWhitespace(s[i])
    decreases |s|
  {
    if s != [] && IsJsWhitespace(s[0]) {
      TrimStartCuts(s[1..]);
      assert forall i :: 1 <= i < |s| ==> s[1..][i - 1] == s[i];
    }
  }

  /** Trailing whitespace removed: a prefix of `s` that ends with a
      non-whitespace character (and, by `TrimEndCuts`, is followed in `s`
      only by whitespace). */
  function TrimEnd(s: string): (r: string)
    ensures |r| <= |s| && r == s[..|r|]
    ensures r != [] ==> !IsJsWhitespace(r[|r| - 1])
    decreases |s|
  {
    if s != [] && IsJsWhitespace(s[|s| - 1]) then TrimEnd(s[..|s| - 1]) else s
  }

  lemma {:induction false} TrimEndCuts(s: string)
    ensures forall i :: |TrimEnd(s)| <= i < |s| ==> IsJsWhitespace(s[i])
    decreases |s|
  {
    if s != [] && IsJsWhitespace(s[|s| - 1]) {
      TrimEndCuts(s[..|s| - 1]);
    }
  }

  /** `s.trim()`. */
  function Trim(s: string): string {
    TrimEnd(TrimStart(s))
  }

  /** `!s.trim()`: the string is empty or all whitespace. */
  predicate Blank(s: string) {
    Trim(s) == ""
  }

  /** Number of characters `trim` cuts from the front of `s`. */
  function TrimmedFront(s: string): nat {
    |s| - |TrimStart(s)|
  }

  /** `trim` yields a contiguous piece of its input; what it cuts away
      at either end is whitespace (`TrimStartCuts`, `TrimEndCuts`), and what
      it keeps has none at its ends (the contracts of `TrimStart` and
      `TrimEnd`). */
  lemma TrimIsSlice(s: string)
    ensures TrimmedFront(s) + |Trim(s)| <= |s|
    ensures Trim(s) == s[TrimmedFront(s)..TrimmedFront(s) + |Trim(s)|]
  {
    var t := TrimStart(s);
    var a := |s| - |t|;
    var u := TrimEnd(t);
    assert Trim(s) == u && TrimmedFront(s) == a;
    assert u == t[..|u|] && t == s[a..];
    SliceOfSuffix(s, a, |u|);
  }

  lemma SliceOfSuffix(s: string, a: nat, n: nat)
    requires a + n <= |s|
    ensures s[a..][..n] == s[a..a + n]
  {
  }

  /** A string is blank exactly when every character is whitespace. */
  lemma BlankIffAllWhitespace(s: string)
    ensures Blank(s) <==> forall i :: 0 <= i < |s| ==> IsJsWhitespace(s[i])
  {
    var t := TrimStart(s);
    TrimStartCuts(s);
    TrimEndCuts(t);
    if Blank(s) {
      assert t == [];
    }
  }

  /** Trimming twice is trimming once. */
  lemma TrimIdempotent(s: string)
    ensures Trim(Trim(s)) == Trim(s)
  {
    var t := Trim(s);
    TrimIsSlice(s);
    if t != [] {
      assert TrimStart(t) == t;
      assert TrimEnd(t) == t;
    }
  }

  // ---------------------------------------------------------------------
  // Case mapping and substring search

  /** `toLowerCase` on one character: ASCII and Latin-1 capitals. */
  function LowerChar(c: char): (d: char)
    ensures 'A' <= c <= 'Z' ==> d as int == c as int + 32
    ensures !('A' <= c <= 'Z') && !('\U{00C0}' <= c <= '\U{00DE}') ==> d == c
  {
    if 'A' <= c <= 'Z' then (c as int + 32) as char
    else if '\U{00C0}' <= c <= '\U{00DE}' && c != '\U{00D7}' then (c as int + 32) as char
    else c
  }

  /** `s.toLowerCase()`, restricted to ASCII and Latin-1 letters. */
  function Lower(s: string): (r: string)
    ensures |r| == |s|
    ensures forall i :: 0 <= i < |s| ==> r[i] == LowerChar(s[i])
    ensures forall i :: 0 <= i < |r| ==> !('A' <= r[i] <= 'Z')
  {
    seq(|s|, i requires 0 <= i < |s| => LowerChar(s[i]))
  }

  lemma LowerIdempotent(s: string)
    ensures Lower(Lower(s)) == Lower(s)
  {
  }

  predicate StartsWith(s: string, t: string) {
    |t| <= |s| && s[..|t|] == t
  }

  /** `s.includes(t)`. */
  predicate Contains(s: string, t: string)
    decreases |s|
  {
    StartsWith(s, t) || (s != [] && Contains(s[1..], t))
  }

  /** `t` occurs in `s` starting at position `k`. */
  predicate OccursAt(s: string, t: string, k: int) {
    0 <= k && k + |t| <= |s| && s[k..k + |t|] == t
  }

  /** `includes` holds exactly when `t` occurs at some position of `s`. */
  lemma {:induction false} ContainsIffOccurs(s: string, t: string)
    ensures Contains(s, t) <==> exists k :: OccursAt(s, t, k)
    decreases |s|
  {
    if s != [] {
      ContainsIffOccurs(s[1..], t);
      if Contains(s[1..], t) {
        var k :| OccursAt(s[1..], t, k);
        assert s[k + 1..k + 1 + |t|] == s[1..][k..k + |t|];
        assert OccursAt(s, t, k + 1);
      }
      if StartsWith(s, t) {
        assert OccursAt(s, t, 0);
      }
      if k :| OccursAt(s, t, k) {
        if k > 0 {
          assert s[1..][k - 1..k - 1 + |t|] == s[k..k + |t|];
          assert OccursAt(s[1..], t, k - 1);
        } else {
          assert StartsWith(s, t);
        }
      }
    } else {
      if k :| OccursAt(s, t, k) {
        assert StartsWith(s, t);
      }
      if Contains(s, t) {
        assert OccursAt(s, t, 0);
      }
    }
  }

  /** Every string includes the empty string. */
  lemma ContainsEmpty(s: string)
    ensures Contains(s, "")
  {
    assert StartsWith(s, "");
  }

  /** A piece cut out of `s` can only contain what `s` contains. */
  lemma {:induction false} ContainsSlice(s: string, a: nat, b: nat, t: string)
    requires a <= b <= |s|
    requires Contains(s[a..b], t)
    ensures Contains(s, t)
  {
    ContainsIffOccurs(s[a..b], t);
    var k :| OccursAt(s[a..b], t, k);
    forall j | 0 <= j < |t| ensures s[a + k..a + k + |t|][j] == t[j] {
      assert s[a..b][k..k + |t|][j] == t[j];
    }
    assert OccursAt(s, t, a + k);
    ContainsIffOccurs(s, t);
  }

  /** Trimming keeps any property every character of the input has. */
  lemma TrimKeepsAll(s: string, p: char -> bool)
    requires forall i :: 0 <= i < |s| ==> p(s[i])
    ensures forall i :: 0 <= i < |Trim(s)| ==> p(Trim(s)[i])
  {
    TrimIsSlice(s);
    var a := TrimmedFront(s);
    var t := Trim(s);
    forall i | 0 <= i < |t| ensures p(t[i]) {
      assert t[i] == s[a + i];
    }
  }

  /** What the trimmed text includes, the text includes. */
  lemma TrimContains(s: string, t: string)
    requires Contains(Trim(s), t)
    ensures Contains(s, t)
  {
    TrimIsSlice(s);
    ContainsSlice(s, TrimmedFront(s), TrimmedFront(s) + |Trim(s)|, t);
  }

  // ---------------------------------------------------------------------
  // indexOf, lastIndexOf, split and join on one character

  /** `s.indexOf(c)`: the first position of `c`, or -1. */
  function IndexOf(s: string, c: char): (r: int)
    ensures -1 <= r < |s|
    ensures r == -1 <==> c !in s
    ensures r >= 0 ==> s[r] == c && forall j :: 0 <= j < r ==> s[j] != c
    decreases |s|
  {
    if s == [] then -1
    else if s[0] == c then 0
    else
      var k := IndexOf(s[1..], c);
      assert forall j :: 1 <= j < |s| ==> s[1..][j - 1] == s[j];
      if k == -1 then -1 else k + 1
  }

  /** `s.lastIndexOf(c)`: the last position of `c`, or -1. */
  function LastIndexOf(s: string, c: char): (r: int)
    ensures -1 <= r < |s|
    ensures r == -1 <==> c !in s
    ensures r >= 0 ==> s[r] == c && forall j :: r < j < |s| ==> s[j] != c
    decreases |s|
  {
    if s == [] then -1
    else if s[|s| - 1] == c then |s| - 1
    else
      assert s == s[..|s| - 1] + [s[|s| - 1]];
      LastIndexOf(s[..|s| - 1], c)
  }

  /** `parts.join(sep)`. */
  function Join(parts: seq<string>, sep: string): string
    decreases |parts|
  {
    if |parts| == 0 then ""
    else if |parts| == 1 then parts[0]
    else parts[0] + sep + Join(parts[1..], sep)
  }

  /** `s.split(c)` for a one-character separator: the maximal pieces of `s`
      between occurrences of `c`; never empty. */
  function Split(s: string, c: char): (r: seq<string>)
    ensures |r| >= 1
    ensures forall i :: 0 <= i < |r| ==> c !in r[i]
    decreases |s|
  {
    var k := IndexOf(s, c);
    if k == -1 then [s] else [s[..k]] + Split(s[k + 1..], c)
  }

  /** Joining the pieces of a split puts the string back together. */
  lemma {:induction false} JoinSplit(s: string, c: char)
    ensures Join(Split(s, c), [c]) == s
    decreases |s|
  {
    var k := IndexOf(s, c);
    if k != -1 {
      var pre, post := s[..k], s[k + 1..];
      var rest := Split(post, c);
      calc {
        Join(Split(s, c), [c]);
        == { SplitAt(s, c, k); }
        Join([pre] + rest, [c]);
        == { JoinCons(pre, rest, [c]); }
        pre + [c] + Join(rest, [c]);
        == { JoinSplit(post, c); }
        pre + [c] + post;
        == { CutAt(s, c, k); }
        s;
      }
    }
  }

  /** A split at the first separator: the piece before it, then the split
      of what follows. */
  lemma SplitAt(s: string, c: char, k: int)
    requires k == IndexOf(s, c) && k != -1
    ensures Split(s, c) == [s[..k]] + Split(s[k + 1..], c)
  {
  }

  lemma CutAt(s: string, c: char, k: int)
    requires 0 <= k < |s| && s[k] == c
    ensures s[..k] + [c] + s[k + 1..] == s
  {
  }

  /** Joining a piece in front of at least one more adds it and a separator. */
  lemma JoinCons(a: string, rest: seq<string>, sep: string)
    requires |rest| >= 1
    ensures Join([a] + rest, sep) == a + sep + Join(rest, sep)
  {
    assert ([a] + rest)[1..] == rest;
  }

  /** A heading line followed by separator-free lines splits back into
      the heading and the lines; with no lines, the heading and "". */
  lemma SplitHeading(first: string, lines: seq<string>, c: char)
    requires c !in first
    requires forall i :: 0 <= i < |lines| ==> c !in lines[i]
    ensures Split(first + [c] + Join(lines, [c]), c) == [first] + (if lines == [] then [""] else lines)
  {
    var rest := if lines == [] then [""] else lines;
    var parts := [first] + rest;
    assert parts[1..] == rest;
    assert Join(rest, [c]) == Join(lines, [c]);
    assert Join(parts, [c]) == first + [c] + Join(rest, [c]);
    SplitJoin(parts, c);
  }

  /** Splitting a join of separator-free pieces gives the pieces back. */
  lemma {:induction false} SplitJoin(parts: seq<string>, c: char)
    requires |parts| >= 1
    requires forall i :: 0 <= i < |parts| ==> c !in parts[i]
    ensures Split(Join(parts, [c]), c) == parts
    decreases |parts|
  {
    if |parts| > 1 {
      var tail := Join(parts[1..], [c]);
      var s := parts[0] + [c] + tail;
      assert Join(parts, [c]) == s;
      assert Split(s, c) == [parts[0]] + Split(tail, c) by {
        FirstSeparator(parts[0], c, tail);
      }
      assert Split(tail, c) == parts[1..] by {
        SplitJoin(parts[1..], c);
      }
      assert parts == [parts[0]] + parts[1..];
    }
  }

  /** The first separator of `a + [c] + t` is the one after `a` when `a`
      holds none. */
  lemma FirstSeparator(a: string, c: char, t: string)
    requires c !in a
    ensures IndexOf(a + [c] + t, c) == |a|
    ensures (a + [c] + t)[..|a|] == a && (a + [c] + t)[|a| + 1..] == t
  {
    var s := a + [c] + t;
    var r := IndexOf(s, c);
    assert s[|a|] == c;
    assert s[..|a|] == a;
    assert s[|a| + 1..] == t;
  }

  // ---------------------------------------------------------------------
  // Numbers as text

  function DigitChar(d: nat): (c: char)
    requires d < 10
    ensures '0' <= c <= '9'
  {
    ('0' as int + d) as char
  }

  predicate IsDigit(c: char) {
    '0' <= c <= '9'
  }

  predicate AllDigits(s: string) {
    forall i :: 0 <= i < |s| ==> IsDigit(s[i])
  }

  /** `n.toString()` for a non-negative integer: decimal digits, most
      significant first, no leading zero. */
  function NatToString(n: nat): (r: string)
    ensures |r| >= 1 && AllDigits(r)
    ensures n > 0 ==> r[0] != '0'
    decreases n
  {
    if n < 10 then [DigitChar(n)] else NatToString(n / 10) + [DigitChar(n % 10)]
  }

  /** `i.toString()` for any integer. */
  function IntToString(i: int): string {
    if i < 0 then "-" + NatToString(-i) else NatToString(i)
  }

  /** The value of a string of decimal digits. */
  function DigitsValue(s: string): nat
    requires AllDigits(s)
    decreases |s|
  {
    if s == [] then 0
    else DigitsValue(s[..|s| - 1]) * 10 + (s[|s| - 1] as int - '0' as int)
  }

  /** Reading the decimal text of `n` gives `n` back, so distinct numbers
      have distinct text. */
  lemma {:induction false} NatToStringRoundTrip(n: nat)
    ensures DigitsValue(NatToString(n)) == n
    decreases n
  {
    if n >= 10 {
      NatToStringRoundTrip(n / 10);
      var s := NatToString(n);
      assert s[..|s| - 1] == NatToString(n / 10);
    }
  }

  lemma NatToStringInjective(m: nat, n: nat)
    requires NatToString(m) == NatToString(n)
    ensures m == n
  {
    NatToStringRoundTrip(m);
    NatToStringRoundTrip(n);
  }

  /** One more decimal digit for every factor of ten. */
  lemma NatToStringStep(n: nat)
    requires n >= 10
    ensures |NatToString(n)| == |NatToString(n / 10)| + 1
  {
  }

  /** A six-digit number prints as exactly six characters. */
  lemma SixDigitText(n: nat)
    requires 100000 <= n <= 999999
    ensures |NatToString(n)| == 6
  {
    var n1 := n / 10;
    var n2 := n1 / 10;
    var n3 := n2 / 10;
    var n4 := n3 / 10;
    var n5 := n4 / 10;
    assert 10000 <= n1 <= 99999;
    assert 1000 <= n2 <= 9999;
    assert 100 <= n3 <= 999;
    assert 10 <= n4 <= 99;
    assert 1 <= n5 <= 9;
    NatToStringStep(n);
    NatToStringStep(n1);
    NatToStringStep(n2);
    NatToStringStep(n3);
    NatToStringStep(n4);
  }

  /** `s.padStart(2, "0")`. */
  function PadStart2(s: string): (r: string)
    ensures |r| == if |s| < 2 then 2 else |s|
    ensures |s| >= 2 ==> r == s
  {
    if |s| == 0 then "00" else if |s| == 1 then "0" + s else s
  }

  /** For 1..99, the padded text is two digits that read back as `n`. */
  lemma PadStart2Digits(n: nat)
    requires 1 <= n <= 99
    ensures |PadStart2(NatToString(n))| == 2
    ensures AllDigits(PadStart2(NatToString(n)))
    ensures DigitsValue(PadStart2(NatToString(n))) == n
  {
    var s := NatToString(n);
    NatToStringRoundTrip(n);
    if n >= 10 {
      assert NatToString(n / 10) == [DigitChar(n / 10)];
      assert |s| == 2;
    } else {
      var p := PadStart2(s);
      assert p == ['0', DigitChar(n)];
      assert p[..1] == ['0'];
      assert DigitsValue(p) == DigitsValue(['0']) * 10 + n;
    }
  }

  // ---------------------------------------------------------------------
  // Global replacement of a literal pattern by ""

  /** ASCII-only case folding, which is what a non-Unicode regular
      expression with the `i` flag applies. */
  function AsciiFold(c: char): char {
    if 'A' <= c <= 'Z' then (c as int + 32) as char else c
  }

  predicate MatchesAt(s: string, pat: string, ignoreCase: bool)
    requires |pat| <= |s|
  {
    if ignoreCase then forall i :: 0 <= i < |pat| ==> AsciiFold(s[i]) == AsciiFold(pat[i])
    else s[..|pat|] == pat
  }

  /** `s.replace(/pat/g, "")` (with the `i` flag when `ignoreCase`): the
      leftmost match is removed, and scanning resumes right after it. */
  function RemoveAll(s: string, pat: string, ignoreCase: bool): (r: string)
    requires |pat| > 0
    ensures |r| <= |s|
    decreases |s|
  {
    if |pat| <= |s| && MatchesAt(s, pat, ignoreCase) then RemoveAll(s[|pat|..], pat, ignoreCase)
    else if s == [] then []
    else [s[0]] + RemoveAll(s[1..], pat, ignoreCase)
  }

  const Fence: string := "```"

  /** After removing every "```", a result that starts with a backtick
      came from a string that starts with one. */
  lemma {:induction false} RemoveFenceLeadingTick(s: string)
    requires RemoveAll(s, Fence, false) != [] && RemoveAll(s, Fence, false)[0] == '`'
    ensures s != [] && s[0] == '`'
    decreases |s|
  {
    if 3 <= |s| && MatchesAt(s, Fence, false) {
      assert s[0] == Fence[0];
    }
  }

  /** Likewise for two leading backticks. */
  lemma {:induction false} RemoveFenceLeadingTicks(s: string)
    requires var r := RemoveAll(s, Fence, false); |r| >= 2 && r[0] == '`' && r[1] == '`'
    ensures |s| >= 2 && s[0] == '`' && s[1] == '`'
    decreases |s|
  {
    if 3 <= |s| && MatchesAt(s, Fence, false) {
      assert s[..3] == Fence;
      assert s[0] == '`' && s[1] == '`';
    } else {
      var r1 := RemoveAll(s[1..], Fence, false);
      assert RemoveAll(s, Fence, false) == [s[0]] + r1;
      assert r1 != [] && r1[0] == '`';
      RemoveFenceLeadingTick(s[1..]);
    }
  }

  /** Removing every "```" left to right leaves no "```": leftover runs of
      backticks are shorter than three and are never glued together. */
  lemma {:induction false} RemoveFenceComplete(s: string)
    ensures !Contains(RemoveAll(s, Fence, false), Fence)
    decreases |s|
  {
    var r := RemoveAll(s, Fence, false);
    if 3 <= |s| && MatchesAt(s, Fence, false) {
      RemoveFenceComplete(s[3..]);
    } else if s != [] {
      var r1 := RemoveAll(s[1..], Fence, false);
      RemoveFenceComplete(s[1..]);
      assert r == [s[0]] + r1;
      assert r[1..] == r1;
      if StartsWith(r, Fence) {
        assert r[..3] == Fence;
        assert r[0] == Fence[0] && r[1] == Fence[1] && r[2] == Fence[2];
        assert r[0] == s[0] && r[1] == r1[0] && r[2] == r1[1];
        RemoveFenceLeadingTicks(s[1..]);
        assert false;
      }
    }
  }
}
