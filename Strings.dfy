/**
 * The .NET string primitives the extension relies on: `String.Split(char)`,
 * `String.Trim()`, `Int32.ToString()` and composite formatting
 * (`String.Format`), stated over `seq<char>`.
 */
module Strings {
  import opened Wrappers

  // ---------------------------------------------------------------------
  // Whitespace and Trim
  // ---------------------------------------------------------------------

  /** `Char.IsWhiteSpace`: the Unicode space separators, line and paragraph
      separators, and the control characters U+0009..U+000D and U+0085. */
  predicate IsWhiteSpace(c: char) {
    c == ' ' || ('\t' <= c <= '\r') || c == '\U{0085}' || c == '\U{00A0}' || c == '\U{1680}'
    || ('\U{2000}' <= c <= '\U{200A}') || c == '\U{2028}' || c == '\U{2029}'
    || c == '\U{202F}' || c == '\U{205F}' || c == '\U{3000}'
  }

  /** Leading whitespace removed. */
  function TrimStart(s: string): (r: string)
    ensures |r| <= |s| && r == s[|s| - |r|..]
    ensures r == [] || !IsWhiteSpace(r[0])
    ensures forall k :: 0 <= k < |s| - |r| ==> IsWhiteSpace(s[k])
    decreases |s|
  {
    if s != [] && IsWhiteSpace(s[0]) then TrimStart(s[1..]) else s
  }

  /** Trailing whitespace removed. */
  function TrimEnd(s: string): (r: string)
    ensures |r| <= |s| && r == s[..|r|]
    ensures r == [] || !IsWhiteSpace(r[|r| - 1])
    ensures forall k :: |r| <= k < |s| ==> IsWhiteSpace(s[k])
    decreases |s|
  {
    if s != [] && IsWhiteSpace(s[|s| - 1]) then TrimEnd(s[..|s| - 1]) else s
  }

  /** `String.Trim()`. */
  function Trim(s: string): string {
    TrimEnd(TrimStart(s))
  }

  /** `string.IsNullOrEmpty(s.Trim())` for a non-null `s`. */
  predicate IsBlank(s: string) {
    Trim(s) == ""
  }

  /** A string is blank exactly when every character in it is whitespace. */
  lemma BlankIffAllWhiteSpace(s: string)
    ensures IsBlank(s) <==> forall k :: 0 <= k < |s| ==> IsWhiteSpace(s[k])
  {
    var t := TrimStart(s);
    if t != [] {
      assert !IsWhiteSpace(t[0]) && t[0] == s[|s| - |t|];
      assert TrimEnd(t) != [];
    }
  }

  // ---------------------------------------------------------------------
  // Split and Join on a single separator character
  // ---------------------------------------------------------------------

  /** `String.Split(sep)`: every piece between separators, empty pieces kept,
      so the result always has one more element than `s` has separators. */
  function Split(s: string, sep: char): (r: seq<string>)
    ensures |r| >= 1
    ensures forall k :: 0 <= k < |r| ==> sep !in r[k]
    decreases |s|
  {
    if s == [] then [""]
    else
      var rest := Split(s[1..], sep);
      if s[0] == sep then [""] + rest
      else [[s[0]] + rest[0]] + rest[1..]
  }

  /** `String.Join(sep, pieces)` (the inverse of Split). */
  function Join(pieces: seq<string>, sep: char): string
    requires |pieces| >= 1
    decreases |pieces|
  {
    if |pieces| == 1 then pieces[0] else pieces[0] + [sep] + Join(pieces[1..], sep)
  }

  function Last<T>(s: seq<T>): T
    requires |s| >= 1
  {
    s[|s| - 1]
  }

  /** Joining the pieces of a split gives back the original string. */
  lemma {:induction false} JoinSplit(s: string, sep: char)
    ensures Join(Split(s, sep), sep) == s
    decreases |s|
  {
    if s != [] {
      var rest := Split(s[1..], sep);
      JoinSplit(s[1..], sep);
      if s[0] == sep {
        assert Split(s, sep) == [""] + rest;
        assert ([""] + rest)[1..] == rest;
        assert s == [sep] + s[1..];
      } else {
        var r := [[s[0]] + rest[0]] + rest[1..];
        assert Split(s, sep) == r;
        if |rest| == 1 {
          assert Join(r, sep) == [s[0]] + rest[0];
        } else {
          assert r[1..] == rest[1..];
          assert Join(r, sep) == [s[0]] + rest[0] + [sep] + Join(rest[1..], sep);
          assert Join(rest, sep) == rest[0] + [sep] + Join(rest[1..], sep);
        }
        assert s == [s[0]] + s[1..];
      }
    }
  }

  lemma {:induction false} SplitWithoutSeparator(a: string, sep: char)
    requires sep !in a
    ensures Split(a, sep) == [a]
    decreases |a|
  {
    if a != [] {
      assert a[0] != sep by { assert a[0] in a; }
      SplitWithoutSeparator(a[1..], sep);
      assert [a[0]] + a[1..] == a;
    }
  }

  lemma {:induction false} SplitAfterPiece(a: string, t: string, sep: char)
    requires sep !in a
    ensures Split(a + [sep] + t, sep) == [a] + Split(t, sep)
    decreases |a|
  {
    var s := a + [sep] + t;
    if a == [] {
      assert s[1..] == t;
    } else {
      assert a[0] != sep by { assert a[0] in a; }
      assert s[1..] == a[1..] + [sep] + t;
      SplitAfterPiece(a[1..], t, sep);
      assert [a[0]] + a[1..] == a;
    }
  }

  /** Splitting a join gives back the pieces, provided no piece holds the separator. */
  lemma {:induction false} SplitJoin(pieces: seq<string>, sep: char)
    requires |pieces| >= 1
    requires forall k :: 0 <= k < |pieces| ==> sep !in pieces[k]
    ensures Split(Join(pieces, sep), sep) == pieces
    decreases |pieces|
  {
    if |pieces| == 1 {
      SplitWithoutSeparator(pieces[0], sep);
    } else {
      SplitJoin(pieces[1..], sep);
      SplitAfterPiece(pieces[0], Join(pieces[1..], sep), sep);
      assert [pieces[0]] + pieces[1..] == pieces;
    }
  }

  /** Appending a piece to a join. */
  lemma {:induction false} JoinSnoc(pieces: seq<string>, last: string, sep: char)
    requires |pieces| >= 1
    ensures Join(pieces + [last], sep) == Join(pieces, sep) + [sep] + last
    decreases |pieces|
  {
    if |pieces| == 1 {
      assert (pieces + [last])[1..] == [last];
    } else {
      assert (pieces + [last])[1..] == pieces[1..] + [last];
      JoinSnoc(pieces[1..], last, sep);
    }
  }

  /** The last piece of a split is what follows the last separator, or the
      whole string when it has none. */
  lemma SplitLastIsSuffix(s: string, sep: char)
    ensures exists k :: 0 <= k <= |s| && Last(Split(s, sep)) == s[k..] && (k == 0 || s[k - 1] == sep)
  {
    var parts := Split(s, sep);
    JoinSplit(s, sep);
    if |parts| == 1 {
      assert Last(parts) == s[0..];
    } else {
      var init := parts[..|parts| - 1];
      assert parts == init + [Last(parts)];
      JoinSnoc(init, Last(parts), sep);
      var k := |Join(init, sep)| + 1;
      assert s == Join(init, sep) + [sep] + Last(parts);
      assert Last(parts) == s[k..] && s[k - 1] == sep;
    }
  }

  // ---------------------------------------------------------------------
  // Decimal rendering of integers (Int32.ToString under the current culture,
  // assumed to use plain ASCII digits and '-')
  // ---------------------------------------------------------------------

  predicate IsDigit(c: char) {
    '0' <= c <= '9'
  }

  function DigitChar(d: nat): (c: char)
    requires d < 10
    ensures IsDigit(c)
  {
    (('0' as int) + d) as char
  }

  function DigitValue(c: char): (d: nat)
    requires IsDigit(c)
    ensures d < 10
  {
    (c as int) - ('0' as int)
  }

  predicate AllDigits(s: string) {
    forall k :: 0 <= k < |s| ==> IsDigit(s[k])
  }

  function NatToString(n: nat): (s: string)
    ensures |s| >= 1 && AllDigits(s)
    decreases n
  {
    if n < 10 then [DigitChar(n)] else NatToString(n / 10) + [DigitChar(n % 10)]
  }

  /** The decimal value of a digit string, most significant digit first. */
  function ParseNat(s: string): nat
    requires AllDigits(s)
    decreases |s|
  {
    if s == [] then 0 else ParseNat(s[..|s| - 1]) * 10 + DigitValue(s[|s| - 1])
  }

  /** `Int32.ToString()`: a minus sign before the digits of a negative number. */
  function IntToString(i: int): (s: string)
    ensures |s| >= 1
  {
    if i < 0 then "-" + NatToString(-i) else NatToString(i)
  }

  predicate IsIntegerText(s: string) {
    if |s| >= 1 && s[0] == '-' then |s| >= 2 && AllDigits(s[1..]) else |s| >= 1 && AllDigits(s)
  }

  function ParseInt(s: string): int
    requires IsIntegerText(s)
  {
    if s[0] == '-' then -(ParseNat(s[1..]) as int) else ParseNat(s)
  }

  lemma {:induction false} ParseNatToString(n: nat)
    ensures ParseNat(NatToString(n)) == n
    decreases n
  {
    if n >= 10 {
      var s := NatToString(n);
      assert s[..|s| - 1] == NatToString(n / 10);
      ParseNatToString(n / 10);
    }
  }

  /** The rendered number can be read back: rendering is lossless. */
  lemma IntToStringRoundTrip(i: int)
    ensures IsIntegerText(IntToString(i)) && ParseInt(IntToString(i)) == i
  {
    if i < 0 {
      var s := IntToString(i);
      assert s[1..] == NatToString(-i);
      ParseNatToString(-i);
    } else {
      ParseNatToString(i);
    }
  }

  /** Distinct numbers are rendered as distinct strings. */
  lemma IntToStringInjective(i: int, j: int)
    requires IntToString(i) == IntToString(j)
    ensures i == j
  {
    IntToStringRoundTrip(i);
    IntToStringRoundTrip(j);
  }

  // ---------------------------------------------------------------------
  // Composite formatting (String.Format) for templates built from literal
  // text, the escapes "{{" and "}}", and numbered items "{n}"
  // ---------------------------------------------------------------------

  /** Why `String.Format` throws a `FormatException`. */
  datatype FormatError =
    | IndexOutOfRange   // an item number at least the number of arguments
    | Malformed         // an unmatched brace or an item that is not "{digits}"

  /** The length of the run of digits at the start of `s`. */
  function DigitRun(s: string): (n: nat)
    ensures n <= |s| && AllDigits(s[..n]) && (n == |s| || !IsDigit(s[n]))
    decreases |s|
  {
    if s != [] && IsDigit(s[0]) then
      var n := 1 + DigitRun(s[1..]);
      assert s[..n] == [s[0]] + s[1..][..n - 1];
      n
    else 0
  }

  function Prepend(p: string, r: Result<string, FormatError>): Result<string, FormatError> {
    match r
    case Success(v) => Success(p + v)
    case Failure(e) => r
  }

  /** `String.Format(template, args)`, scanning left to right; the first
      problem met decides the exception. */
  function Format(template: string, args: seq<string>): Result<string, FormatError>
    decreases |template|
  {
    if template == [] then Success("")
    else if template[0] == '{' then
      if |template| >= 2 && template[1] == '{' then Prepend("{", Format(template[2..], args))
      else
        var n := DigitRun(template[1..]);
        if n == 0 || n + 1 >= |template| || template[n + 1] != '}' then Failure(Malformed)
        else
          var index := ParseNat(template[1..][..n]);
          if index >= |args| then Failure(IndexOutOfRange)
          else Prepend(args[index], Format(template[n + 2..], args))
    else if template[0] == '}' then
      if |template| >= 2 && template[1] == '}' then Prepend("}", Format(template[2..], args))
      else Failure(Malformed)
    else Prepend([template[0]], Format(template[1..], args))
  }

  predicate NoBraces(s: string) {
    forall i | 0 <= i < |s| :: s[i] != '{' && s[i] != '}'
  }

  lemma PrependPrepend(a: string, b: string, r: Result<string, FormatError>)
    ensures Prepend(a, Prepend(b, r)) == Prepend(a + b, r)
  {
    match r
    case Success(v) => assert a + (b + v) == (a + b) + v;
    case Failure(_) =>
  }

  /** Literal text without braces is copied unchanged. */
  lemma {:induction false} FormatLiteral(p: string, t: string, args: seq<string>)
    requires NoBraces(p)
    ensures Format(p + t, args) == Prepend(p, Format(t, args))
    decreases |p|
  {
    if p == [] {
      assert p + t == t;
      match Format(t, args)
      case Success(v) => assert p + v == v;
      case Failure(_) =>
    } else {
      assert p[0] in p;
      assert (p + t)[0] == p[0];
      assert (p + t)[1..] == p[1..] + t;
      assert Format(p + t, args) == Prepend([p[0]], Format(p[1..] + t, args));
      FormatLiteral(p[1..], t, args);
      PrependPrepend([p[0]], p[1..], Format(t, args));
      assert [p[0]] + p[1..] == p;
    }
  }

  /** "}}" renders one literal closing brace. */
  lemma FormatClosingEscape(t: string, args: seq<string>)
    ensures Format("}}" + t, args) == Prepend("}", Format(t, args))
  {
    assert ("}}" + t)[2..] == t;
  }

  /** "{{" renders one literal opening brace. */
  lemma FormatOpeningEscape(t: string, args: seq<string>)
    ensures Format("{{" + t, args) == Prepend("{", Format(t, args))
  {
    assert ("{{" + t)[2..] == t;
  }

  /** A format item "{d}" with a single digit d. */
  predicate IsItem(item: string) {
    |item| == 3 && item[0] == '{' && IsDigit(item[1]) && item[2] == '}'
  }

  function ItemIndex(item: string): nat
    requires IsItem(item)
  {
    DigitValue(item[1])
  }

  /** "{d}" renders argument d. */
  lemma FormatItem(item: string, t: string, args: seq<string>)
    requires IsItem(item) && ItemIndex(item) < |args|
    ensures Format(item + t, args) == Prepend(args[ItemIndex(item)], Format(t, args))
  {
    var s := item + t;
    assert s[1..] == item[1..] + t;
    assert DigitRun(s[1..]) == 1 by {
      assert IsDigit(s[1..][0]) && !IsDigit(s[1..][1]);
    }
    assert s[1..][..1] == [item[1]];
    assert ParseNat([item[1]]) == ItemIndex(item) by {
      assert [item[1]][..0] == [];
    }
    assert s[3..] == t;
  }

  /** "{d}" with too few arguments throws. */
  lemma FormatItemOutOfRange(item: string, t: string, args: seq<string>)
    requires IsItem(item) && ItemIndex(item) >= |args|
    ensures Format(item + t, args) == Failure(IndexOutOfRange)
  {
    var s := item + t;
    assert s[1..] == item[1..] + t;
    assert DigitRun(s[1..]) == 1 by {
      assert IsDigit(s[1..][0]) && !IsDigit(s[1..][1]);
    }
    assert s[1..][..1] == [item[1]];
    assert ParseNat([item[1]]) == ItemIndex(item) by {
      assert [item[1]][..0] == [];
    }
  }

  /** "{{{d}}}" renders argument d between literal braces. */
  lemma FormatBracedItem(item: string, t: string, args: seq<string>)
    requires IsItem(item) && ItemIndex(item) < |args|
    ensures Format("{{" + item + "}}" + t, args)
         == Prepend("{" + args[ItemIndex(item)] + "}", Format(t, args))
  {
    var a := args[ItemIndex(item)];
    var u := item + ("}}" + t);
    assert "{{" + item + "}}" + t == "{{" + u;
    FormatOpeningEscape(u, args);
    FormatItem(item, "}}" + t, args);
    FormatClosingEscape(t, args);
    PrependPrepend(a, "}", Format(t, args));
    PrependPrepend("{", a + "}", Format(t, args));
    assert "{" + (a + "}") == "{" + a + "}";
  }

  /** Formatting the empty remainder of a template. */
  lemma FormatEnd(p: string, args: seq<string>)
    ensures Prepend(p, Format("", args)) == Success(p)
  {
    assert p + "" == p;
  }

  lemma DigitRunAppend(x: string, y: string)
    requires DigitRun(x) < |x|
    ensures DigitRun(x + y) == DigitRun(x)
    decreases |x|
  {
    if IsDigit(x[0]) {
      assert (x + y)[1..] == x[1..] + y;
      DigitRunAppend(x[1..], y);
    }
  }

  /**
   * A template that formats without error consists of whole format items
   * and escapes, so formatting it followed by more text is formatting the
   * two parts one after the other.
   */
  lemma {:induction false} FormatConcat(a: string, b: string, args: seq<string>)
    requires Format(a, args).Success?
    ensures Format(a + b, args) == Prepend(Format(a, args).value, Format(b, args))
    decreases |a|
  {
    var s := a + b;
    if a == [] {
      assert s == b;
      match Format(b, args)
      case Success(v) => assert "" + v == v;
      case Failure(_) =>
    } else if a[0] == '{' {
      if |a| >= 2 && a[1] == '{' {
        assert s[2..] == a[2..] + b;
        FormatConcat(a[2..], b, args);
        PrependPrepend("{", Format(a[2..], args).value, Format(b, args));
      } else {
        var n := DigitRun(a[1..]);
        assert s[1..] == a[1..] + b;
        DigitRunAppend(a[1..], b);
        assert s[1..][..n] == a[1..][..n];
        var index := ParseNat(a[1..][..n]);
        assert s[n + 2..] == a[n + 2..] + b;
        FormatConcat(a[n + 2..], b, args);
        PrependPrepend(args[index], Format(a[n + 2..], args).value, Format(b, args));
      }
    } else if a[0] == '}' {
      assert s[2..] == a[2..] + b;
      FormatConcat(a[2..], b, args);
      PrependPrepend("}", Format(a[2..], args).value, Format(b, args));
    } else {
      assert s[1..] == a[1..] + b;
      FormatConcat(a[1..], b, args);
      PrependPrepend([a[0]], Format(a[1..], args).value, Format(b, args));
    }
  }

  /** Text without braces formats to itself. */
  lemma FormatText(p: string, args: seq<string>)
    requires NoBraces(p)
    ensures Format(p, args) == Success(p)
  {
    assert p + "" == p;
    FormatLiteral(p, "", args);
    FormatEnd(p, args);
  }

  /** A lone format item formats to its argument. */
  lemma FormatSingleItem(item: string, args: seq<string>)
    requires IsItem(item) && ItemIndex(item) < |args|
    ensures Format(item, args) == Success(args[ItemIndex(item)])
  {
    assert item + "" == item;
    FormatItem(item, "", args);
    FormatEnd(args[ItemIndex(item)], args);
  }

  /** A lone format item without its argument throws. */
  lemma FormatSingleItemOutOfRange(item: string, args: seq<string>)
    requires IsItem(item) && ItemIndex(item) >= |args|
    ensures Format(item, args) == Failure(IndexOutOfRange)
  {
    assert item + "" == item;
    FormatItemOutOfRange(item, "", args);
  }

  /** The escapes "{{" and "}}" format to single braces. */
  lemma FormatEscapes(args: seq<string>)
    ensures Format("{{", args) == Success("{")
    ensures Format("}}", args) == Success("}")
  {
    assert "{{" == "{{" + "" && "}}" == "}}" + "";
    FormatOpeningEscape("", args);
    FormatClosingEscape("", args);
    FormatEnd("{", args);
    FormatEnd("}", args);
  }

  /** Appending a piece that formats without error to a template that does. */
  lemma FormatThen(a: string, piece: string, args: seq<string>)
    requires Format(a, args).Success? && Format(piece, args).Success?
    ensures Format(a + piece, args) == Success(Format(a, args).value + Format(piece, args).value)
  {
    FormatConcat(a, piece, args);
  }
}

