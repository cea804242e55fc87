/**
 * Text handling of the splitter: Python's `str.split()` with no argument
 * (maximal runs of non-whitespace characters), `' '.join(...)`, and the
 * decimal rendering of a natural number that an f-string performs.
 */
module Text {

  /** The characters Python's `str.isspace` (and so `str.split()`) treats as whitespace. */
  predicate IsSpace(c: char) {
    || ('\t' <= c <= '\r')
    || ('\U{1C}' <= c <= '\U{1F}')
    || c == ' ' || c == '\U{85}' || c == '\U{A0}' || c == '\U{1680}'
    || ('\U{2000}' <= c <= '\U{200A}')
    || c == '\U{2028}' || c == '\U{2029}' || c == '\U{202F}' || c == '\U{205F}'
    || c == '\U{3000}'
  }

  /** A token `str.split()` can produce: non-empty and free of whitespace. */
  predicate IsWord(w: string) {
    |w| > 0 && forall i :: 0 <= i < |w| ==> !IsSpace(w[i])
  }

  predicate AllWords(ws: seq<string>) {
    forall i :: 0 <= i < |ws| ==> IsWord(ws[i])
  }

  /** Length of the leading run of non-whitespace characters of `s`. */
  function WordLength(s: string): (k: nat)
    ensures k <= |s|
  {
    if s == [] || IsSpace(s[0]) then 0 else 1 + WordLength(s[1..])
  }

  /** `s.split()`: the maximal whitespace-free runs of `s`, in order. */
  function Words(s: string): seq<string>
    decreases |s|
  {
    if s == [] then []
    else if IsSpace(s[0]) then Words(s[1..])
    else
      var k := WordLength(s);
      [s[..k]] + Words(s[k..])
  }

  /** `' '.join(ws)`. */
  function Join(ws: seq<string>): string {
    if ws == [] then ""
    else if |ws| == 1 then ws[0]
    else ws[0] + " " + Join(ws[1..])
  }

  /** The decimal digits of `n`, as `str(n)` writes them. */
  function Decimal(n: nat): string {
    if n < 10 then [Digit(n)] else Decimal(n / 10) + [Digit(n % 10)]
  }

  function Digit(d: nat): (c: char)
    requires d < 10
    ensures '0' <= c <= '9' && c as int - '0' as int == d
  {
    ('0' as int + d) as char
  }

  lemma {:induction false} WordLengthOfWord(w: string, rest: string)
    requires IsWord(w)
    requires rest == [] || IsSpace(rest[0])
    ensures WordLength(w + rest) == |w|
    decreases |w|
  {
    var s := w + rest;
    assert s[0] == w[0];
    if |w| > 1 {
      assert s[1..] == w[1..] + rest;
      WordLengthOfWord(w[1..], rest);
    } else {
      assert s[1..] == rest;
    }
  }

  /** A word followed by whitespace (or nothing) splits off as the first token. */
  lemma WordsOfWordThen(w: string, rest: string)
    requires IsWord(w)
    requires rest == [] || IsSpace(rest[0])
    ensures Words(w + rest) == [w] + Words(rest)
  {
    var s := w + rest;
    WordLengthOfWord(w, rest);
    assert s[..|w|] == w;
    assert s[|w|..] == rest;
  }

  /** A single word is its own split. */
  lemma WordsOfWord(w: string)
    requires IsWord(w)
    ensures Words(w) == [w]
  {
    WordsOfWordThen(w, []);
    assert w + [] == w;
  }

  /** A run of non-whitespace that ends before the end of `a`, or at a space, is unchanged by extending `a`. */
  lemma {:induction false} WordLengthExtend(a: string, r: string)
    requires WordLength(a) < |a| || (r != [] && IsSpace(r[0]))
    ensures WordLength(a + r) == WordLength(a)
    decreases |a|
  {
    var s := a + r;
    if a == [] {
      assert s == r;
    } else {
      assert s[0] == a[0];
      if !IsSpace(a[0]) {
        assert s[1..] == a[1..] + r;
        WordLengthExtend(a[1..], r);
      }
    }
  }

  /**
   * A whitespace character separates independently split halves. Together
   * with `WordsOfWord` and `Words([]) == []` this fixes `Words` on every string.
   */
  lemma {:induction false} WordsAtSpace(a: string, c: char, b: string)
    requires IsSpace(c)
    ensures Words(a + [c] + b) == Words(a) + Words(b)
    decreases |a|
  {
    var r := [c] + b;
    assert a + [c] + b == a + r;
    if a == [] {
      assert a + r == r;
      WordsSkipSpace(c, b);
    } else if IsSpace(a[0]) {
      WordsSkipLeading(a, r);
      assert a[1..] + [c] + b == a[1..] + r;
      WordsAtSpace(a[1..], c, b);
    } else {
      var k := WordLength(a);
      WordLengthExtend(a, r);
      WordsOfRunThen(a, r);
      assert a[k..] + [c] + b == a[k..] + r;
      WordsAtSpace(a[k..], c, b);
    }
  }

  /** Whitespace at the head of `a` is skipped, whatever follows `a`. */
  lemma WordsSkipLeading(a: string, r: string)
    requires a != [] && IsSpace(a[0])
    ensures Words(a + r) == Words(a[1..] + r)
  {
    var s := a + r;
    assert s[0] == a[0];
    assert s[1..] == a[1..] + r;
  }

  /** A string whose first word is the first word of `a` splits that word off first. */
  lemma WordsOfRunThen(a: string, r: string)
    requires a != [] && !IsSpace(a[0])
    requires WordLength(a + r) == WordLength(a)
    ensures Words(a + r) == [a[..WordLength(a)]] + Words(a[WordLength(a)..] + r)
  {
    var k := WordLength(a);
    var s := a + r;
    assert s[0] == a[0];
    assert s[..k] == a[..k];
    assert s[k..] == a[k..] + r;
  }

  /** Leading whitespace is skipped by `split()`. */
  lemma WordsSkipSpace(c: char, r: string)
    requires IsSpace(c)
    ensures Words([c] + r) == Words(r)
  {
    assert ([c] + r)[1..] == r;
  }

  /** A word, a space, then anything: the word is the first token. */
  lemma WordsOfWordSpace(w: string, r: string)
    requires IsWord(w)
    ensures Words(w + " " + r) == [w] + Words(r)
  {
    assert w + " " + r == w + ([' '] + r);
    WordsOfWordThen(w, [' '] + r);
    WordsSkipSpace(' ', r);
  }

  /**
   * Splitting `' '.join(ws) + ' ' + r` gives back the words `ws` followed by the
   * words of `r`; an empty `ws` contributes only the separating space.
   */
  lemma {:induction false} WordsOfJoinThen(ws: seq<string>, r: string)
    requires AllWords(ws)
    ensures Words(Join(ws) + " " + r) == ws + Words(r)
    decreases |ws|
  {
    if ws == [] {
      assert Join(ws) + " " + r == [' '] + r;
      WordsSkipSpace(' ', r);
    } else {
      var w, rest := ws[0], ws[1..];
      assert IsWord(w);
      assert ws == [w] + rest;
      if rest == [] {
        assert Join(ws) == w;
        WordsOfWordSpace(w, r);
      } else {
        var tail := Join(rest) + " " + r;
        assert Join(ws) + " " + r == w + " " + tail;
        WordsOfWordSpace(w, tail);
        WordsOfJoinThen(rest, r);
      }
    }
  }

  /** `' '.join` is inverted by `split()` on lists of whitespace-free, non-empty tokens. */
  lemma {:induction false} WordsOfJoin(ws: seq<string>)
    requires AllWords(ws)
    ensures Words(Join(ws)) == ws
    decreases |ws|
  {
    if ws == [] {
    } else if |ws| == 1 {
      assert IsWord(ws[0]);
      WordsOfWord(ws[0]);
    } else {
      assert IsWord(ws[0]);
      var tail := Join(ws[1..]);
      assert Join(ws) == ws[0] + (" " + tail);
      WordsOfWordThen(ws[0], " " + tail);
      assert (" " + tail)[1..] == tail;
      WordsOfJoin(ws[1..]);
      assert ws == [ws[0]] + ws[1..];
    }
  }

  /** The leading run is non-empty unless `s` is empty or starts with whitespace, and holds no whitespace. */
  lemma {:induction false} WordLengthRun(s: string)
    ensures var k := WordLength(s);
      && (s != [] && !IsSpace(s[0]) ==> k > 0)
      && forall i :: 0 <= i < k ==> !IsSpace(s[i])
  {
    if s != [] && !IsSpace(s[0]) {
      WordLengthRun(s[1..]);
      var k := WordLength(s);
      forall i | 0 <= i < k ensures !IsSpace(s[i]) {
        if i > 0 {
          assert s[i] == s[1..][i - 1];
        }
      }
    }
  }

  /** Every token `split()` returns is non-empty and free of whitespace. */
  lemma {:induction false} WordsAreWords(s: string)
    ensures AllWords(Words(s))
    decreases |s|
  {
    if s == [] {
    } else if IsSpace(s[0]) {
      WordsAreWords(s[1..]);
    } else {
      var k := WordLength(s);
      WordLengthRun(s);
      WordsAreWords(s[k..]);
      assert IsWord(s[..k]);
    }
  }

  /** `str(n)` is all decimal digits, none of them whitespace, so it is one token. */
  lemma {:induction false} DecimalIsWord(n: nat)
    ensures IsWord(Decimal(n))
    ensures forall i :: 0 <= i < |Decimal(n)| ==> '0' <= Decimal(n)[i] <= '9'
  {
    if n >= 10 {
      DecimalIsWord(n / 10);
    }
  }

  /** The number a string of decimal digits denotes, most significant digit first, as `int(s)` reads it. */
  function DigitsValue(s: string): nat
    requires forall i :: 0 <= i < |s| ==> '0' <= s[i] <= '9'
  {
    if s == [] then 0 else 10 * DigitsValue(s[..|s| - 1]) + (s[|s| - 1] as int - '0' as int)
  }

  /** `str(n)` reads back as `n`, and starts with `0` only when `n` is 0: it is the canonical decimal form. */
  lemma {:induction false} DecimalValue(n: nat)
    ensures |Decimal(n)| >= 1
    ensures forall i :: 0 <= i < |Decimal(n)| ==> '0' <= Decimal(n)[i] <= '9'
    ensures DigitsValue(Decimal(n)) == n
    ensures Decimal(n)[0] == '0' <==> n == 0
  {
    DecimalIsWord(n);
    var s := Decimal(n);
    if n >= 10 {
      DecimalValue(n / 10);
      var head := Decimal(n / 10);
      assert s == head + [Digit(n % 10)];
      assert s[..|s| - 1] == head;
      assert s[0] == head[0];
    }
  }
}
