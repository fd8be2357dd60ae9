/** Line-oriented text helpers used to state the layout of the diagnostic rendering. */
module Text {

  /** The decimal digits of `n`, most significant first, without sign or padding. */
  function Decimal(n: nat): (s: string)
    ensures |s| >= 1
    ensures forall j :: 0 <= j < |s| ==> '0' <= s[j] <= '9'
    ensures n < 10 <==> |s| == 1
  {
    if n < 10 then ["0123456789"[n]] else Decimal(n / 10) + ["0123456789"[n % 10]]
  }

  /** The decimal rendering of an integer: a minus sign before the digits of a negative one. */
  function SignedDecimal(n: int): (s: string)
    ensures |s| >= 1
    ensures forall j :: 0 <= j < |s| ==> s[j] == '-' || '0' <= s[j] <= '9'
    ensures n >= 0 ==> s == Decimal(n)
  {
    if n < 0 then "-" + Decimal(-n) else Decimal(n)
  }

  /** `lines` joined with `sep` between consecutive lines. */
  function Join(lines: seq<string>, sep: char): string
    requires |lines| >= 1
  {
    if |lines| == 1 then lines[0] else lines[0] + [sep] + Join(lines[1..], sep)
  }

  /** A prefix followed by a decimal number contains no separator that neither of them contains. */
  lemma NoSeparatorInLine(prefix: string, n: nat, sep: char)
    requires sep !in prefix && !('0' <= sep <= '9')
    ensures sep !in prefix + Decimal(n)
  {
    var digits := Decimal(n);
    assert sep !in digits;
  }

  /** The pieces of `s` between occurrences of `sep`; an empty string is one empty piece. */
  function Split(s: string, sep: char): (parts: seq<string>)
    ensures |parts| >= 1
    ensures forall j :: 0 <= j < |parts| ==> sep !in parts[j]
  {
    if |s| == 0 then [""]
    else
      var rest := Split(s[1..], sep);
      if s[0] == sep then [""] + rest else [[s[0]] + rest[0]] + rest[1..]
  }

  /** A string with no separator in it is a single piece. */
  lemma {:induction false} SplitWithoutSeparator(s: string, sep: char)
    requires sep !in s
    ensures Split(s, sep) == [s]
    decreases |s|
  {
    if |s| > 0 {
      SplitWithoutSeparator(s[1..], sep);
      assert [s[0]] + s[1..] == s;
    }
  }

  /** The first character either ends the first piece or joins it. */
  lemma SplitCons(c: char, t: string, sep: char)
    ensures Split([c] + t, sep)
            == if c == sep then [""] + Split(t, sep) else [[c] + Split(t, sep)[0]] + Split(t, sep)[1..]
  {
    assert ([c] + t)[1..] == t;
  }

  /** A piece list whose first piece is extended by a character, in front of further pieces. */
  lemma ExtendFirst(c: char, front: seq<string>, back: seq<string>)
    requires |front| >= 1
    ensures [[c] + (front + back)[0]] + (front + back)[1..] == ([[c] + front[0]] + front[1..]) + back
  {
    assert (front + back)[0] == front[0];
    assert (front + back)[1..] == front[1..] + back;
  }

  /** A character put in front of a string whose pieces are those of `t` followed by those of `b`. */
  lemma SplitConcatStep(c: char, t: string, rest: string, b: string, sep: char)
    requires Split(rest, sep) == Split(t, sep) + Split(b, sep)
    ensures Split([c] + rest, sep) == Split([c] + t, sep) + Split(b, sep)
  {
    SplitCons(c, rest, sep);
    SplitCons(c, t, sep);
    if c != sep {
      ExtendFirst(c, Split(t, sep), Split(b, sep));
    }
  }

  /** Splitting at a separator splits the two sides independently. */
  lemma {:induction false} SplitConcat(a: string, sep: char, b: string)
    ensures Split(a + [sep] + b, sep) == Split(a, sep) + Split(b, sep)
    decreases |a|
  {
    if |a| == 0 {
      assert a + [sep] + b == [sep] + b;
      SplitCons(sep, b, sep);
    } else {
      SplitConcat(a[1..], sep, b);
      SplitConcatStep(a[0], a[1..], a[1..] + [sep] + b, b, sep);
      assert a + [sep] + b == [a[0]] + (a[1..] + [sep] + b);
      assert a == [a[0]] + a[1..];
    }
  }

  /** A separator-free word followed by the separator is split off as the first piece. */
  lemma SplitWord(w: string, sep: char, rest: string)
    requires sep !in w
    ensures Split(w + [sep] + rest, sep) == [w] + Split(rest, sep)
  {
    SplitConcat(w, sep, rest);
    SplitWithoutSeparator(w, sep);
  }

  /** Two separator-free words with the separator between them split into exactly those words. */
  lemma SplitTwoWords(a: string, b: string, sep: char)
    requires sep !in a && sep !in b
    ensures Split(a + [sep] + b, sep) == [a, b]
  {
    SplitWord(a, sep, b);
    SplitWithoutSeparator(b, sep);
  }

  /** Four separator-free words, each followed by the separator, are split off in order. */
  lemma SplitFourWords(a: string, b: string, c: string, d: string, sep: char, rest: string)
    requires sep !in a && sep !in b && sep !in c && sep !in d
    ensures Split(a + [sep] + b + [sep] + c + [sep] + d + [sep] + rest, sep) == [a, b, c, d] + Split(rest, sep)
  {
    var r3 := d + [sep] + rest;
    var r2 := c + [sep] + r3;
    var r1 := b + [sep] + r2;
    assert a + [sep] + b + [sep] + c + [sep] + d + [sep] + rest == a + [sep] + r1;
    SplitWord(a, sep, r1);
    SplitWord(b, sep, r2);
    SplitWord(c, sep, r3);
    SplitWord(d, sep, rest);
  }

  /** `Split` undoes `Join` when no line contains the separator. */
  lemma {:induction false} SplitJoin(lines: seq<string>, sep: char)
    requires |lines| >= 1
    requires forall j :: 0 <= j < |lines| ==> sep !in lines[j]
    ensures Split(Join(lines, sep), sep) == lines
    decreases |lines|
  {
    if |lines| == 1 {
      SplitWithoutSeparator(lines[0], sep);
    } else {
      SplitJoin(lines[1..], sep);
      SplitWord(lines[0], sep, Join(lines[1..], sep));
      assert [lines[0]] + lines[1..] == lines;
    }
  }
}
