/** The string operations of Python that the handler relies on, over sequences. */
module Text {

  predicate StartsWith<T(==)>(s: seq<T>, prefix: seq<T>) {
    |prefix| <= |s| && s[..|prefix|] == prefix
  }

  predicate EndsWith<T(==)>(s: seq<T>, suffix: seq<T>) {
    |suffix| <= |s| && s[|s| - |suffix|..] == suffix
  }

  /** Python's `pat in s`. */
  predicate Contains<T(==)>(s: seq<T>, pat: seq<T>)
    decreases |s|
  {
    StartsWith(s, pat) || (|s| > 0 && Contains(s[1..], pat))
  }

  lemma {:induction false} ContainsInfix<T>(a: seq<T>, pat: seq<T>, b: seq<T>)
    ensures Contains(a + pat + b, pat)
  {
    if a == [] {
      assert a + pat + b == pat + b;
      assert (pat + b)[..|pat|] == pat;
    } else {
      ContainsInfix(a[1..], pat, b);
      assert (a + pat + b)[1..] == a[1..] + pat + b;
    }
  }

  lemma {:induction false} ContainsShort<T>(s: seq<T>, pat: seq<T>)
    requires |s| < |pat|
    ensures !Contains(s, pat)
  {
    if s != [] {
      ContainsShort(s[1..], pat);
    }
  }

  lemma {:induction false} ContainsNeedsHead<T>(s: seq<T>, pat: seq<T>)
    requires pat != [] && pat[0] !in s
    ensures !Contains(s, pat)
  {
    if s != [] {
      ContainsNeedsHead(s[1..], pat);
    }
  }

  lemma {:induction false} ContainsSingle<T>(s: seq<T>, x: T)
    ensures Contains(s, [x]) <==> x in s
  {
    if s != [] {
      ContainsSingle(s[1..], x);
      assert s == [s[0]] + s[1..];
    }
  }

  /** Python's `s.replace(pat, rep)`: a left-to-right scan that replaces each
      non-overlapping occurrence of `pat`. */
  function ReplaceAll<T(==)>(s: seq<T>, pat: seq<T>, rep: seq<T>): seq<T>
    requires |pat| > 0
    decreases |s|
  {
    if |s| < |pat| then s
    else if s[..|pat|] == pat then rep + ReplaceAll(s[|pat|..], pat, rep)
    else [s[0]] + ReplaceAll(s[1..], pat, rep)
  }

  /** Replacing leaves a sequence without the pattern untouched. */
  lemma {:induction false} ReplaceAbsent<T>(s: seq<T>, pat: seq<T>, rep: seq<T>)
    requires |pat| > 0 && !Contains(s, pat)
    ensures ReplaceAll(s, pat, rep) == s
  {
    if |s| >= |pat| {
      ReplaceAbsent(s[1..], pat, rep);
      assert s == [s[0]] + s[1..];
    }
  }

  /** Deleting a pattern keeps every element that the pattern does not mention. */
  lemma {:induction false} RemoveKeeps<T>(s: seq<T>, pat: seq<T>, x: T)
    requires |pat| > 0 && x !in pat
    ensures x in ReplaceAll(s, pat, []) <==> x in s
  {
    if |s| < |pat| {
    } else if s[..|pat|] == pat {
      RemoveKeeps(s[|pat|..], pat, x);
      assert s == s[..|pat|] + s[|pat|..];
    } else {
      RemoveKeeps(s[1..], pat, x);
      assert s == [s[0]] + s[1..];
    }
  }

  /** Python's `s.split(sep)` for a one-element separator. */
  function Split<T(==)>(s: seq<T>, sep: T): (r: seq<seq<T>>)
    ensures |r| > 0
    decreases |s|
  {
    if s == [] then [[]]
    else
      var rest := Split(s[1..], sep);
      if s[0] == sep then [[]] + rest else [[s[0]] + rest[0]] + rest[1..]
  }

  /** A text without the separator splits into itself alone. */
  lemma {:induction false} SplitWithoutSeparator<T>(s: seq<T>, sep: T)
    requires sep !in s
    ensures Split(s, sep) == [s]
  {
    if s != [] {
      SplitWithoutSeparator(s[1..], sep);
      assert s == [s[0]] + s[1..];
    }
  }

  /** Python's `sep.join(parts)`. */
  function Join<T>(parts: seq<seq<T>>, sep: seq<T>): seq<T>
    decreases |parts|
  {
    if parts == [] then []
    else if |parts| == 1 then parts[0]
    else parts[0] + sep + Join(parts[1..], sep)
  }

  /** No piece of a split holds the separator. */
  lemma {:induction false} SplitPieces<T>(s: seq<T>, sep: T)
    ensures forall i | 0 <= i < |Split(s, sep)| :: sep !in Split(s, sep)[i]
  {
    if s != [] {
      SplitPieces(s[1..], sep);
    }
  }

  /** A word without the separator, then the separator: the word is the first piece. */
  lemma {:induction false} SplitAfterWord<T>(w: seq<T>, sep: T, rest: seq<T>)
    requires sep !in w
    ensures Split(w + [sep] + rest, sep) == [w] + Split(rest, sep)
    decreases |w|
  {
    var s := w + [sep] + rest;
    if w == [] {
      assert s[0] == sep && s[1..] == rest;
    } else {
      assert s[0] == w[0] && s[1..] == w[1..] + [sep] + rest;
      SplitAfterWord(w[1..], sep, rest);
      assert [w[0]] + w[1..] == w;
    }
  }

  /** Splitting and joining with the same separator are inverse. */
  lemma {:induction false} JoinSplit<T>(s: seq<T>, sep: T)
    ensures Join(Split(s, sep), [sep]) == s
  {
    if s != [] {
      var rest := Split(s[1..], sep);
      JoinSplit(s[1..], sep);
      if s[0] == sep {
        assert Split(s, sep) == [[]] + rest;
        assert s == [sep] + s[1..];
      } else {
        var r := Split(s, sep);
        assert r[1..] == rest[1..];
        assert s == [s[0]] + s[1..];
        if |rest| == 1 {
        } else {
          assert Join(rest, [sep]) == rest[0] + [sep] + Join(rest[1..], [sep]);
        }
      }
    }
  }

  /** The characters that Python's `str.split()` treats as whitespace
      (`str.isspace()`). */
  predicate IsSpace(c: char) {
    var n := c as int;
    (0x09 <= n <= 0x0D) || (0x1C <= n <= 0x20) || n == 0x85 || n == 0xA0 || n == 0x1680
    || (0x2000 <= n <= 0x200A) || n == 0x2028 || n == 0x2029 || n == 0x202F
    || n == 0x205F || n == 0x3000
  }

  /** Python's argument-less `s.split()`: the maximal runs of non-whitespace. */
  function Tokens(s: string): seq<string> {
    TokensAfter(s, [])
  }

  /** Splitting the rest `s` of a line while the token `current` is still open. */
  function TokensAfter(s: string, current: string): seq<string>
    decreases |s|
  {
    if s == [] then Opened(current)
    else if IsSpace(s[0]) then Opened(current) + TokensAfter(s[1..], [])
    else TokensAfter(s[1..], current + [s[0]])
  }

  /** The token `current` as emitted when whitespace or the end closes it. */
  function Opened(current: string): seq<string> {
    if current == [] then [] else [current]
  }

  function Concat<T>(parts: seq<seq<T>>): seq<T> {
    if parts == [] then [] else parts[0] + Concat(parts[1..])
  }

  lemma {:induction false} ConcatAppend<T>(a: seq<seq<T>>, b: seq<seq<T>>)
    ensures Concat(a + b) == Concat(a) + Concat(b)
  {
    if a == [] {
      assert a + b == b;
    } else {
      assert (a + b)[1..] == a[1..] + b;
      ConcatAppend(a[1..], b);
    }
  }

  /** `s` with its whitespace removed. */
  function NonSpace(s: string): string {
    if s == [] then [] else (if IsSpace(s[0]) then [] else [s[0]]) + NonSpace(s[1..])
  }

  predicate IsToken(t: string) {
    t != [] && forall i | 0 <= i < |t| :: !IsSpace(t[i])
  }

  /** The tokens are non-empty whitespace-free words which, put back together, give
      exactly the non-whitespace characters of the line, in order. */
  lemma {:induction false} TokensAfterSpec(s: string, current: string)
    requires forall i | 0 <= i < |current| :: !IsSpace(current[i])
    ensures forall k | 0 <= k < |TokensAfter(s, current)| :: IsToken(TokensAfter(s, current)[k])
    ensures Concat(TokensAfter(s, current)) == current + NonSpace(s)
    decreases |s|
  {
    if s == [] {
      OpenedSpec(current);
    } else if IsSpace(s[0]) {
      TokensAfterSpec(s[1..], []);
      OpenedSpec(current);
      ConcatAppend(Opened(current), TokensAfter(s[1..], []));
      TokensAppend(Opened(current), TokensAfter(s[1..], []));
    } else {
      TokensAfterSpec(s[1..], current + [s[0]]);
      assert NonSpace(s) == [s[0]] + NonSpace(s[1..]);
      assert current + [s[0]] + NonSpace(s[1..]) == current + NonSpace(s);
    }
  }

  lemma OpenedSpec(current: string)
    requires forall i | 0 <= i < |current| :: !IsSpace(current[i])
    ensures forall k | 0 <= k < |Opened(current)| :: IsToken(Opened(current)[k])
    ensures Concat(Opened(current)) == current
  {
    if current != [] {
      assert Concat(Opened(current)) == current + Concat([]);
    }
  }

  lemma TokensAppend(a: seq<string>, b: seq<string>)
    requires forall k | 0 <= k < |a| :: IsToken(a[k])
    requires forall k | 0 <= k < |b| :: IsToken(b[k])
    ensures forall k | 0 <= k < |a + b| :: IsToken((a + b)[k])
  {
    forall k | 0 <= k < |a + b|
      ensures IsToken((a + b)[k])
    {
      if k < |a| { assert (a + b)[k] == a[k]; } else { assert (a + b)[k] == b[k - |a|]; }
    }
  }

  lemma TokensSpec(s: string)
    ensures forall k | 0 <= k < |Tokens(s)| :: IsToken(Tokens(s)[k])
    ensures Concat(Tokens(s)) == NonSpace(s)
  {
    TokensAfterSpec(s, []);
  }

  /** A run of non-whitespace extends the open token and stays open. */
  lemma {:induction false} TokensAfterRun(t: string, current: string)
    requires forall i | 0 <= i < |t| :: !IsSpace(t[i])
    ensures TokensAfter(t, current) == Opened(current + t)
    decreases |t|
  {
    if t == [] {
      assert current + t == current;
    } else {
      TokensAfterRun(t[1..], current + [t[0]]);
      assert current + [t[0]] + t[1..] == current + t;
    }
  }

  /** A whitespace character closes whatever token is open: what follows it is
      split on its own. */
  lemma {:induction false} TokensAfterSpace(a: string, w: char, b: string, current: string)
    requires IsSpace(w)
    ensures TokensAfter(a + [w] + b, current) == TokensAfter(a, current) + TokensAfter(b, [])
    decreases |a|
  {
    var s := a + [w] + b;
    if a == [] {
      assert s[0] == w && s[1..] == b;
    } else {
      assert s[0] == a[0] && s[1..] == a[1..] + [w] + b;
      if IsSpace(a[0]) {
        TokensAfterSpace(a[1..], w, b, []);
      } else {
        TokensAfterSpace(a[1..], w, b, current + [a[0]]);
      }
    }
  }

  lemma {:induction false} TokensAfterBlank(s: string)
    requires forall i | 0 <= i < |s| :: IsSpace(s[i])
    ensures TokensAfter(s, []) == []
    decreases |s|
  {
    if s != [] {
      TokensAfterBlank(s[1..]);
    }
  }

  /** A single word splits into itself. */
  lemma TokensOfToken(t: string)
    requires IsToken(t)
    ensures Tokens(t) == [t]
  {
    TokensAfterRun(t, []);
    assert [] + t == t;
  }

  /** Splitting at a whitespace character: the tokens on either side, in order. */
  lemma TokensSplitAtSpace(a: string, w: char, b: string)
    requires IsSpace(w)
    ensures Tokens(a + [w] + b) == Tokens(a) + Tokens(b)
  {
    TokensAfterSpace(a, w, b, []);
  }

  /** A line of whitespace only has no tokens. */
  lemma TokensOfSpace(s: string)
    requires forall i | 0 <= i < |s| :: IsSpace(s[i])
    ensures Tokens(s) == []
  {
    TokensAfterBlank(s);
  }

  /** Whether a CR LF pair starts at index `i` of `s`. */
  predicate CrlfAt(s: string, i: int) {
    0 <= i && i + 1 < |s| && s[i] == '\r' && s[i + 1] == '\n'
  }

  /** Python's `s.split("\r\n")[0]`: the text before the first CRLF. */
  function FirstLine(s: string): (r: string)
    ensures StartsWith(s, r)
    ensures forall i | 0 <= i < |r| :: !CrlfAt(s, i)
    ensures r == s || CrlfAt(s, |r|)
    decreases |s|
  {
    if |s| < 2 then s
    else if s[0] == '\r' && s[1] == '\n' then []
    else
      var rest := FirstLine(s[1..]);
      assert forall i | 1 <= i <= |rest| :: CrlfAt(s, i) == CrlfAt(s[1..], i - 1);
      [s[0]] + rest
  }

  function DigitChar(d: nat): (c: char)
    requires d < 10
  {
    ('0' as int + d) as char
  }

  /** Python's `str(n)` for a natural number. */
  function NatToString(n: nat): (r: string)
    ensures r != [] && forall i | 0 <= i < |r| :: '0' <= r[i] <= '9'
  {
    if n < 10 then [DigitChar(n)] else NatToString(n / 10) + [DigitChar(n % 10)]
  }

  /** Python's `str(i)` (and an f-string field) for an integer. */
  function IntToString(i: int): string {
    if i < 0 then "-" + NatToString(-i) else NatToString(i)
  }
}
