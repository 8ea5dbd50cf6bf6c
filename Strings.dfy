/**
 * The string primitives the log parser relies on, modelled after the Python
 * built-ins it calls: `str.split()` with no argument (whitespace fields),
 * `str.split(sep)` with a one-character separator, `sep.join(parts)` and the
 * decimal rendering of a non-negative integer by an f-string.
 */
module Strings {

  /** Python's ASCII whitespace: space, \t \n \v \f \r and the separators \x1c-\x1f. */
  predicate IsSpace(c: char)
    ensures IsSpace(c) ==> c < '!'
    ensures c == ' ' || c == '\t' || c == '\n' || c == '\r' ==> IsSpace(c)
  {
    c == ' ' || ('\t' <= c <= '\r') || ('\U{1C}' <= c <= '\U{1F}')
  }

  predicate NoSpace(s: string)
  {
    forall i :: 0 <= i < |s| ==> !IsSpace(s[i])
  }

  predicate AllSpace(s: string)
  {
    forall i :: 0 <= i < |s| ==> IsSpace(s[i])
  }

  /** Length of the longest prefix of `s` that holds no whitespace. */
  function WordLength(s: string): (n: nat)
    ensures n <= |s|
    ensures NoSpace(s[..n])
    ensures n < |s| ==> IsSpace(s[n])
  {
    if s == [] || IsSpace(s[0]) then 0 else 1 + WordLength(s[1..])
  }

  /**
   * `s.split()`: the maximal runs of non-whitespace characters of `s`, in order.
   * Leading, trailing and repeated whitespace produce no empty field.
   */
  function Fields(s: string): (r: seq<string>)
    ensures forall i :: 0 <= i < |r| ==> r[i] != [] && NoSpace(r[i])
    decreases |s|
  {
    if s == [] then []
    else if IsSpace(s[0]) then Fields(s[1..])
    else
      var n := WordLength(s);
      [s[..n]] + Fields(s[n..])
  }

  /** `s.split(sep)`: the pieces between occurrences of `sep`, empty pieces kept. */
  function SplitOn(s: string, sep: char): (r: seq<string>)
    ensures |r| >= 1
    ensures forall i :: 0 <= i < |r| ==> sep !in r[i]
    ensures NoSpace(s) ==> forall i :: 0 <= i < |r| ==> NoSpace(r[i])
  {
    if s == [] then [[]]
    else
      var rest := SplitOn(s[1..], sep);
      if s[0] == sep then [[]] + rest
      else [[s[0]] + rest[0]] + rest[1..]
  }

  /** `sep.join(parts)` for a one-character separator. */
  function Join(sep: char, parts: seq<string>): (r: string)
    ensures parts != [] ==> parts[0] <= r
    ensures |parts| > 1 ==> |r| > |parts[0]| && r[|parts[0]|] == sep
  {
    if parts == [] then []
    else if |parts| == 1 then parts[0]
    else parts[0] + [sep] + Join(sep, parts[1..])
  }

  /** Joining whitespace-free parts on a non-whitespace separator leaves no whitespace. */
  lemma {:induction false} JoinNoSpace(sep: char, parts: seq<string>)
    requires !IsSpace(sep)
    requires forall i :: 0 <= i < |parts| ==> NoSpace(parts[i])
    ensures NoSpace(Join(sep, parts))
  {
    if |parts| > 1 {
      JoinNoSpace(sep, parts[1..]);
    }
  }

  /** Decimal digit for 0 <= d < 10. */
  function Digit(d: nat): (c: char)
    requires d < 10
    ensures '0' <= c <= '9'
  {
    (('0' as int) + d) as char
  }

  predicate IsDigit(c: char)
  {
    '0' <= c <= '9'
  }

  /** `str(n)` for a non-negative integer: decimal digits, no leading zero. */
  function Decimal(n: nat): (r: string)
    ensures |r| >= 1
    ensures forall i :: 0 <= i < |r| ==> IsDigit(r[i])
    ensures r[0] == '0' ==> r == "0"
  {
    if n < 10 then [Digit(n)] else Decimal(n / 10) + [Digit(n % 10)]
  }

  /** The value of a string of decimal digits (the inverse of `Decimal`). */
  function DecimalValue(s: string): nat
    requires forall i :: 0 <= i < |s| ==> IsDigit(s[i])
  {
    if s == [] then 0
    else DecimalValue(s[..|s| - 1]) * 10 + DigitValue(s[|s| - 1])
  }

  /** The value of a decimal digit (the inverse of `Digit`). */
  function DigitValue(c: char): (d: nat)
    requires IsDigit(c)
    ensures d < 10 && Digit(d) == c
  {
    (c as int) - ('0' as int)
  }

  /** Reading back what `Decimal` wrote gives the number. */
  lemma {:induction false} DecimalRoundTrip(n: nat)
    ensures DecimalValue(Decimal(n)) == n
  {
    if n >= 10 {
      DecimalRoundTrip(n / 10);
      var s := Decimal(n);
      assert s[..|s| - 1] == Decimal(n / 10);
    }
  }

  /** Splitting what was joined on `sep` gives the parts back, provided none holds `sep`. */
  lemma {:induction false} SplitJoin(parts: seq<string>, sep: char)
    requires |parts| >= 1
    requires forall i :: 0 <= i < |parts| ==> sep !in parts[i]
    ensures SplitOn(Join(sep, parts), sep) == parts
  {
    if |parts| == 1 {
      SplitWithout(parts[0], sep);
    } else {
      SplitJoin(parts[1..], sep);
      SplitAfter(parts[0], sep, Join(sep, parts[1..]));
      assert parts == [parts[0]] + parts[1..];
    }
  }

  /** A string without `sep` splits into itself. */
  lemma {:induction false} SplitWithout(a: string, sep: char)
    requires sep !in a
    ensures SplitOn(a, sep) == [a]
  {
    if a != [] {
      SplitWithout(a[1..], sep);
      assert [a[0]] + a[1..] == a;
    }
  }

  /** The first piece of `a + [sep] + b` is `a` when `a` holds no `sep`. */
  lemma {:induction false} SplitAfter(a: string, sep: char, b: string)
    requires sep !in a
    ensures SplitOn(a + [sep] + b, sep) == [a] + SplitOn(b, sep)
  {
    if a == [] {
      assert a + [sep] + b == [sep] + b;
      assert ([sep] + b)[1..] == b;
    } else {
      SplitAfter(a[1..], sep, b);
      assert (a + [sep] + b)[1..] == a[1..] + [sep] + b;
      assert [a[0]] + a[1..] == a;
    }
  }

  /** Joining the pieces of a split on `sep` gives the string back. */
  lemma {:induction false} JoinSplit(s: string, sep: char)
    ensures Join(sep, SplitOn(s, sep)) == s
  {
    if s != [] {
      JoinSplit(s[1..], sep);
      var rest := SplitOn(s[1..], sep);
      if s[0] == sep {
        assert ([[]] + rest)[1..] == rest;
      } else {
        var r := [[s[0]] + rest[0]] + rest[1..];
        if |rest| == 1 {
          assert Join(sep, rest) == rest[0];
        } else {
          assert r[1..] == rest[1..];
          assert Join(sep, rest) == rest[0] + [sep] + Join(sep, rest[1..]);
        }
      }
    }
  }

  /** Whitespace alone has no field. */
  lemma {:induction false} FieldsOfSpace(s: string)
    requires AllSpace(s)
    ensures Fields(s) == []
    decreases |s|
  {
    if s != [] {
      FieldsOfSpace(s[1..]);
    }
  }

  /** Leading whitespace produces no field. */
  lemma FieldsAfterSpace(c: char, rest: string)
    requires IsSpace(c)
    ensures Fields([c] + rest) == Fields(rest)
  {
    assert ([c] + rest)[1..] == rest;
  }

  /** A word followed by whitespace and more text is the first field. */
  lemma {:induction false} FieldsOfWord(w: string, rest: string)
    requires w != [] && NoSpace(w)
    requires rest == [] || IsSpace(rest[0])
    ensures Fields(w + rest) == [w] + Fields(rest)
  {
    WordLengthOfWord(w, rest);
    assert (w + rest)[..|w|] == w;
    assert (w + rest)[|w|..] == rest;
  }

  lemma {:induction false} WordLengthOfWord(w: string, rest: string)
    requires NoSpace(w)
    requires rest == [] || IsSpace(rest[0])
    ensures WordLength(w + rest) == |w|
  {
    if w != [] {
      WordLengthOfWord(w[1..], rest);
      assert (w + rest)[1..] == w[1..] + rest;
    } else {
      assert w + rest == rest;
    }
  }

  /** Any run of whitespace in front of a line produces no field. */
  lemma {:induction false} FieldsAfterSpaces(head: string, s: string)
    requires AllSpace(head)
    ensures Fields(head + s) == Fields(s)
    decreases |head|
  {
    if head == [] {
      assert head + s == s;
    } else {
      assert head + s == [head[0]] + (head[1..] + s);
      FieldsAfterSpace(head[0], head[1..] + s);
      FieldsAfterSpaces(head[1..], s);
    }
  }

  /**
   * A line laid out as words, each followed by its own gap: the whitespace
   * between it and the next word, or after the last word.
   */
  function Spread(words: seq<string>, gaps: seq<string>): string
    requires |gaps| == |words|
  {
    if words == [] then [] else words[0] + gaps[0] + Spread(words[1..], gaps[1..])
  }

  /** Gaps of whitespace, of which only the one after the last word may be empty. */
  predicate Gaps(gaps: seq<string>)
  {
    && (forall i :: 0 <= i < |gaps| ==> AllSpace(gaps[i]))
    && (forall i :: 0 <= i < |gaps| - 1 ==> gaps[i] != [])
  }

  /**
   * `str.split()` of a line made of leading whitespace and whitespace-free
   * words separated by any runs of whitespace gives back exactly the words.
   */
  lemma FieldsOfSpread(head: string, words: seq<string>, gaps: seq<string>)
    requires AllSpace(head) && |gaps| == |words| && Gaps(gaps)
    requires forall i :: 0 <= i < |words| ==> words[i] != [] && NoSpace(words[i])
    ensures Fields(head + Spread(words, gaps)) == words
  {
    FieldsAfterSpaces(head, Spread(words, gaps));
    FieldsOfGaps(words, gaps);
  }

  lemma {:induction false} FieldsOfGaps(words: seq<string>, gaps: seq<string>)
    requires |gaps| == |words| && Gaps(gaps)
    requires forall i :: 0 <= i < |words| ==> words[i] != [] && NoSpace(words[i])
    ensures Fields(Spread(words, gaps)) == words
  {
    if words != [] {
      var w, g, rest := words[0], gaps[0], Spread(words[1..], gaps[1..]);
      assert Gaps(gaps[1..]);
      FieldsOfGaps(words[1..], gaps[1..]);
      assert Spread(words, gaps) == w + (g + rest);
      if g == [] {
        assert rest == [] && g + rest == [];
        FieldsOfWord(w, []);
      } else {
        FieldsOfWord(w, g + rest);
        FieldsAfterSpaces(g, rest);
      }
      assert words == [w] + words[1..];
    }
  }

  /**
   * Whitespace-free words joined by a whitespace character, with any trailing
   * whitespace (a line terminator, say), split back into those words.
   */
  lemma {:induction false} FieldsOfJoin(sep: char, words: seq<string>, tail: string)
    requires IsSpace(sep) && AllSpace(tail)
    requires forall i :: 0 <= i < |words| ==> words[i] != [] && NoSpace(words[i])
    ensures Fields(Join(sep, words) + tail) == words
  {
    if words == [] {
      assert Join(sep, words) + tail == tail;
      FieldsOfSpace(tail);
    } else if |words| == 1 {
      FieldsOfWord(words[0], tail);
      FieldsOfSpace(tail);
    } else {
      FieldsOfJoin(sep, words[1..], tail);
      FieldsOfJoinStep(sep, words, tail);
    }
  }

  /** One word in front of a joined line that splits back: the longer line splits back too. */
  lemma FieldsOfJoinStep(sep: char, words: seq<string>, tail: string)
    requires IsSpace(sep) && |words| > 1
    requires words[0] != [] && NoSpace(words[0])
    requires Fields(Join(sep, words[1..]) + tail) == words[1..]
    ensures Fields(Join(sep, words) + tail) == words
  {
    var w, rest := words[0], Join(sep, words[1..]) + tail;
    assert Join(sep, words) == w + [sep] + Join(sep, words[1..]);
    assert Join(sep, words) + tail == w + ([sep] + rest);
    FieldsOfWordThenSpace(w, sep, rest);
    assert words == [w] + words[1..];
  }

  /** A word, one whitespace character and more text: the word is the first field. */
  lemma FieldsOfWordThenSpace(w: string, sep: char, rest: string)
    requires w != [] && NoSpace(w) && IsSpace(sep)
    ensures Fields(w + ([sep] + rest)) == [w] + Fields(rest)
  {
    FieldsOfWord(w, [sep] + rest);
    FieldsAfterSpace(sep, rest);
  }
}
