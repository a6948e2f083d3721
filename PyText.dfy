/** The few Python string operations the exporter relies on, stated on `seq<char>`:
    `str.format` with positional `{}` fields, `str(int)`, ASCII `str.lower` and
    `str.split` on a one-character separator, each with the partner that pins it down. */
module PyText {

  datatype Option<+T> = None | Some(value: T)

  // ---------------------------------------------------------------------------
  // str.format with "{}" fields

  /** `template.format(*args)` for templates whose only fields are `{}`: each `{}`
      is replaced by the next argument; running out of arguments is Python's
      IndexError, here `None`; arguments left over are ignored, as in Python. */
  function Format(template: string, args: seq<string>): Option<string>
    decreases |template|
  {
    if template == [] then Some([])
    else if |template| >= 2 && template[0] == '{' && template[1] == '}' then
      if args == [] then None
      else match Format(template[2..], args[1..])
        case None => None
        case Some(rest) => Some(args[0] + rest)
    else match Format(template[1..], args)
      case None => None
      case Some(rest) => Some([template[0]] + rest)
  }

  /** Text without a `{` is copied through by `Format` and consumes no argument. */
  lemma {:induction false} FormatLiteralPrefix(lit: string, t: string, args: seq<string>)
    requires '{' !in lit
    ensures Format(lit + t, args) ==
      match Format(t, args)
      case None => None
      case Some(rest) => Some(lit + rest)
  {
    if lit != [] {
      assert (lit + t)[0] == lit[0] != '{';
      assert (lit + t)[1..] == lit[1..] + t;
      FormatLiteralPrefix(lit[1..], t, args);
      match Format(t, args)
      case None =>
      case Some(rest) =>
        assert [lit[0]] + (lit[1..] + rest) == lit + rest;
    } else {
      assert lit + t == t;
      match Format(t, args)
      case None =>
      case Some(rest) =>
        assert lit + rest == rest;
    }
  }

  /** One field followed by a brace-free tail: the first argument is spliced in. */
  lemma FormatField(lit: string, tail: string, a: string, args: seq<string>)
    requires '{' !in lit
    ensures Format(lit + "{}" + tail, [a] + args) ==
      match Format(tail, args)
      case None => None
      case Some(rest) => Some(lit + a + rest)
  {
    assert lit + "{}" + tail == lit + ("{}" + tail);
    FormatLiteralPrefix(lit, "{}" + tail, [a] + args);
    var u := "{}" + tail;
    assert u[0] == '{' && u[1] == '}' && u[2..] == tail;
    assert ([a] + args)[1..] == args;
    match Format(tail, args)
    case None =>
    case Some(rest) =>
      assert Format(u, [a] + args) == Some(a + rest);
      assert lit + (a + rest) == lit + a + rest;
  }

  /** A template without braces formats to itself. */
  lemma FormatNoFields(lit: string, args: seq<string>)
    requires '{' !in lit
    ensures Format(lit, args) == Some(lit)
  {
    FormatLiteralPrefix(lit, [], args);
    assert lit + [] == lit;
  }

  /** A template with one field between brace-free text. */
  lemma FormatOneField(t: string, pre: string, post: string, a: string)
    requires t == pre + "{}" + post && '{' !in pre && '{' !in post
    ensures Format(t, [a]) == Some(pre + a + post)
  {
    assert [a] + [] == [a];
    FormatField(pre, post, a, []);
    FormatNoFields(post, []);
  }

  /** A template with two fields between brace-free text. */
  lemma FormatTwoFields(t: string, p0: string, p1: string, p2: string, a: string, b: string)
    requires t == p0 + "{}" + p1 + "{}" + p2
    requires '{' !in p0 && '{' !in p1 && '{' !in p2
    ensures Format(t, [a, b]) == Some(p0 + a + p1 + b + p2)
  {
    var t1 := p1 + "{}" + p2;
    assert t == p0 + "{}" + t1;
    FormatOneField(t1, p1, p2, b);
    assert [a] + [b] == [a, b];
    FormatField(p0, t1, a, [b]);
    assert p0 + a + (p1 + b + p2) == p0 + a + p1 + b + p2;
  }

  /** A template with three fields between brace-free text. */
  lemma FormatThreeFields(t: string, p0: string, p1: string, p2: string, p3: string,
                          a: string, b: string, c: string)
    requires t == p0 + "{}" + p1 + "{}" + p2 + "{}" + p3
    requires '{' !in p0 && '{' !in p1 && '{' !in p2 && '{' !in p3
    ensures Format(t, [a, b, c]) == Some(p0 + a + p1 + b + p2 + c + p3)
  {
    var t1 := p1 + "{}" + p2 + "{}" + p3;
    assert t == p0 + "{}" + t1;
    FormatTwoFields(t1, p1, p2, p3, b, c);
    assert [a] + [b, c] == [a, b, c];
    FormatField(p0, t1, a, [b, c]);
    assert p0 + a + (p1 + b + p2 + c + p3) == p0 + a + p1 + b + p2 + c + p3;
  }

  // ---------------------------------------------------------------------------
  // str(int)

  predicate IsDigit(c: char) { '0' <= c <= '9' }

  function DigitChar(d: nat): (c: char)
    requires d < 10
    ensures IsDigit(c) && c as int - '0' as int == d
  {
    ('0' as int + d) as char
  }

  /** The decimal digits of `n`, most significant first, as `str(n)` writes them. */
  function NatDecimal(n: nat): (s: string)
    ensures |s| >= 1
    ensures forall i :: 0 <= i < |s| ==> IsDigit(s[i])
    ensures |s| > 1 ==> s[0] != '0'
    decreases n
  {
    if n < 10 then [DigitChar(n)] else NatDecimal(n / 10) + [DigitChar(n % 10)]
  }

  /** `str(n)` for any Python int: a minus sign before the digits of `-n` when negative. */
  function IntDecimal(n: int): (s: string)
    ensures n >= 0 ==> s == NatDecimal(n)
    ensures n < 0 ==> s == "-" + NatDecimal(-n)
  {
    if n < 0 then "-" + NatDecimal(-n) else NatDecimal(n)
  }

  /** The value of a string of decimal digits (`int(s)` on digit strings). */
  function DigitsValue(s: string): nat
    requires forall i :: 0 <= i < |s| ==> IsDigit(s[i])
  {
    if s == [] then 0
    else
      assert IsDigit(s[|s| - 1]);
      10 * DigitsValue(s[..|s| - 1]) + (s[|s| - 1] as int - '0' as int)
  }

  /** `int(s)` on the strings `str` produces: an optional minus sign and digits. */
  function ParseInt(s: string): Option<int>
  {
    if s != [] && s[0] == '-' then
      if |s| > 1 && forall i :: 1 <= i < |s| ==> IsDigit(s[i])
      then Some(0 - DigitsValue(s[1..]) as int) else None
    else if s != [] && forall i :: 0 <= i < |s| ==> IsDigit(s[i])
      then Some(DigitsValue(s)) else None
  }

  lemma {:induction false} DigitsValueOfDecimal(n: nat)
    ensures DigitsValue(NatDecimal(n)) == n
    decreases n
  {
    if n >= 10 {
      var s := NatDecimal(n);
      assert s[..|s| - 1] == NatDecimal(n / 10);
      DigitsValueOfDecimal(n / 10);
    }
  }

  /** Round trip: reading back what `str(n)` wrote gives `n`. */
  lemma DecimalRoundTrip(n: int)
    ensures ParseInt(IntDecimal(n)) == Some(n)
  {
    if n < 0 {
      var d := NatDecimal(-n);
      assert ("-" + d)[1..] == d;
      DigitsValueOfDecimal(-n);
    } else {
      DigitsValueOfDecimal(n);
    }
  }

  /** `str` is injective: distinct integers print differently. */
  lemma DecimalInjective(m: int, n: int)
    requires IntDecimal(m) == IntDecimal(n)
    ensures m == n
  {
    DecimalRoundTrip(m);
    DecimalRoundTrip(n);
  }

  // ---------------------------------------------------------------------------
  // str.lower

  /** Lower-casing of one character; only ASCII letters are modelled. */
  function LowerChar(c: char): (d: char)
    ensures 'A' <= c <= 'Z' ==> 'a' <= d <= 'z' && d as int - 'a' as int == c as int - 'A' as int
    ensures !('A' <= c <= 'Z') ==> d == c
  {
    if 'A' <= c <= 'Z' then (c as int - 'A' as int + 'a' as int) as char else c
  }

  function Lower(s: string): (r: string)
  {
    seq(|s|, i requires 0 <= i < |s| => LowerChar(s[i]))
  }

  lemma LowerConcat(a: string, b: string)
    ensures Lower(a + b) == Lower(a) + Lower(b)
  {
  }

  // ---------------------------------------------------------------------------
  // str.split and str.join on one separator character

  /** `s.split(sep)`: the maximal separator-free pieces, in order; never empty. */
  function Split(s: string, sep: char): (parts: seq<string>)
    ensures |parts| >= 1
    decreases |s|
  {
    if s == [] then [[]]
    else
      var rest := Split(s[1..], sep);
      if s[0] == sep then [[]] + rest else [[s[0]] + rest[0]] + rest[1..]
  }

  /** `sep.join(parts)`. */
  function Join(parts: seq<string>, sep: char): string
    requires |parts| >= 1
  {
    if |parts| == 1 then parts[0] else parts[0] + [sep] + Join(parts[1..], sep)
  }

  /** `s.split(sep)[-1]`. */
  function LastPiece(s: string, sep: char): string
  {
    var parts := Split(s, sep);
    parts[|parts| - 1]
  }

  /** No piece of a split contains the separator. */
  lemma {:induction false} SplitPiecesSeparatorFree(s: string, sep: char)
    ensures forall k :: 0 <= k < |Split(s, sep)| ==> sep !in Split(s, sep)[k]
    decreases |s|
  {
    if s != [] {
      SplitPiecesSeparatorFree(s[1..], sep);
    }
  }

  /** Round trip: joining the pieces of a split restores the string. */
  lemma {:induction false} JoinSplit(s: string, sep: char)
    ensures Join(Split(s, sep), sep) == s
    decreases |s|
  {
    if s != [] {
      var rest := Split(s[1..], sep);
      JoinSplit(s[1..], sep);
      if s[0] == sep {
        JoinCons([], rest, sep);
      } else {
        JoinHeadExtend(s[0], rest, sep);
      }
      assert s == [s[0]] + s[1..];
    }
  }

  /** A join of at least two pieces starts with the first piece and a separator. */
  lemma JoinCons(p: string, rest: seq<string>, sep: char)
    requires |rest| >= 1
    ensures Join([p] + rest, sep) == p + [sep] + Join(rest, sep)
  {
    assert ([p] + rest)[1..] == rest;
  }

  /** Growing the first piece grows the join at its front. */
  lemma JoinHeadExtend(c: char, parts: seq<string>, sep: char)
    requires |parts| >= 1
    ensures Join([[c] + parts[0]] + parts[1..], sep) == [c] + Join(parts, sep)
  {
    if |parts| > 1 {
      JoinCons([c] + parts[0], parts[1..], sep);
      JoinCons(parts[0], parts[1..], sep);
      assert [parts[0]] + parts[1..] == parts;
    } else {
      assert [[c] + parts[0]] + parts[1..] == [[c] + parts[0]];
    }
  }

  /** A string without the separator splits into itself alone. */
  lemma {:induction false} SplitNoSeparator(s: string, sep: char)
    requires sep !in s
    ensures Split(s, sep) == [s]
    decreases |s|
  {
    if s != [] {
      assert sep !in s[1..];
      SplitNoSeparator(s[1..], sep);
      assert s[0] != sep;
      assert [s[0]] + s[1..] == s;
    }
  }

  /** Splitting at one separator splits the two sides independently. */
  lemma {:induction false} SplitAtSeparator(a: string, b: string, sep: char)
    ensures Split(a + [sep] + b, sep) == Split(a, sep) + Split(b, sep)
    decreases |a|
  {
    if a == [] {
      assert a + [sep] + b == [sep] + b;
      assert ([sep] + b)[1..] == b;
    } else {
      assert (a + [sep] + b)[1..] == a[1..] + [sep] + b;
      SplitAtSeparator(a[1..], b, sep);
    }
  }

  /** The last piece after a separator is exactly the separator-free tail. */
  lemma LastPieceAfterSeparator(a: string, b: string, sep: char)
    requires sep !in b
    ensures LastPiece(a + [sep] + b, sep) == b
  {
    SplitAtSeparator(a, b, sep);
    SplitNoSeparator(b, sep);
  }

  /** Joining splits off the last piece behind the last separator. */
  lemma {:induction false} JoinSnoc(parts: seq<string>, sep: char)
    requires |parts| >= 2
    ensures Join(parts, sep) == Join(parts[..|parts| - 1], sep) + [sep] + parts[|parts| - 1]
    decreases |parts|
  {
    if |parts| > 2 {
      var tail := parts[1..];
      JoinSnoc(tail, sep);
      assert parts[..|parts| - 1][1..] == tail[..|tail| - 1];
    }
  }

  /** `s.split(sep)[-1]` is the whole string when it has no separator, and
      otherwise what follows its last separator. */
  lemma LastPieceShape(s: string, sep: char)
    ensures sep !in LastPiece(s, sep)
    ensures s == LastPiece(s, sep)
            || (|LastPiece(s, sep)| < |s|
                && s == s[..|s| - |LastPiece(s, sep)| - 1] + [sep] + LastPiece(s, sep))
  {
    var parts := Split(s, sep);
    var last := parts[|parts| - 1];
    assert sep !in last by {
      SplitPiecesSeparatorFree(s, sep);
    }
    if |parts| == 1 {
      JoinSplit(s, sep);
    } else {
      var front := Join(parts[..|parts| - 1], sep);
      assert s == front + [sep] + last by {
        JoinSplit(s, sep);
        JoinSnoc(parts, sep);
      }
      assert s[..|front|] == front;
    }
  }
}
