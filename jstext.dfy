/** The JavaScript string operations the core relies on, over `seq<char>`.
    Case mapping is ASCII only; `length` counts characters (a character outside the
    Basic Multilingual Plane counts once here and twice in JavaScript). */
module JsText {
  import opened Wrappers

  /** White space as `String.prototype.trim`, `parseInt` and the regular-expression
      class `\s` see it: the WhiteSpace and LineTerminator code points of ECMAScript. */
  predicate IsSpace(c: char) {
    c == '\t' || c == '\n' || c == '\U{B}' || c == '\U{C}' || c == '\r' || c == ' '
    || c == '\U{A0}' || c == '\U{1680}' || ('\U{2000}' <= c <= '\U{200A}')
    || c == '\U{2028}' || c == '\U{2029}' || c == '\U{202F}' || c == '\U{205F}'
    || c == '\U{3000}' || c == '\U{FEFF}'
  }

  /** The regular-expression class `\d`. */
  predicate IsDigit(c: char) { '0' <= c <= '9' }

  predicate AllDigits(s: string) { forall i :: 0 <= i < |s| ==> IsDigit(s[i]) }

  /** A JavaScript string is truthy when it is defined and not empty. */
  predicate Truthy(x: Option<string>) { x.Some? && |x.value| > 0 }

  // ---------------------------------------------------------------------------
  // trim

  function TrimStart(s: string): (r: string)
    ensures |r| <= |s|
    ensures |r| > 0 ==> !IsSpace(r[0])
  {
    if |s| > 0 && IsSpace(s[0]) then TrimStart(s[1..]) else s
  }

  function TrimEnd(s: string): (r: string)
    ensures |r| <= |s|
    ensures |r| > 0 ==> !IsSpace(r[|r| - 1])
  {
    if |s| > 0 && IsSpace(s[|s| - 1]) then TrimEnd(s[..|s| - 1]) else s
  }

  /** `s.trim()` */
  function Trim(s: string): string {
    TrimEnd(TrimStart(s))
  }

  /** A trimmed string is empty or starts and ends with a non-space. */
  lemma TrimEnds(s: string)
    ensures var r := Trim(s);
      |r| > 0 ==> !IsSpace(r[0]) && !IsSpace(r[|r| - 1])
  {
    TrimEndKeepsFirst(TrimStart(s));
  }

  /** Cutting white space off the end leaves the first character where it was. */
  lemma {:induction false} TrimEndKeepsFirst(s: string)
    ensures |TrimEnd(s)| > 0 ==> TrimEnd(s)[0] == s[0]
  {
    if |s| > 0 && IsSpace(s[|s| - 1]) {
      TrimEndKeepsFirst(s[..|s| - 1]);
    }
  }

  /** Trimming twice is trimming once. */
  lemma TrimIdempotent(s: string)
    ensures Trim(Trim(s)) == Trim(s)
  {
    var r := Trim(s);
    TrimEnds(s);
    NoSpaceEndsTrim(r);
  }

  /** A string that neither starts nor ends with white space is its own trim. */
  lemma NoSpaceEndsTrim(s: string)
    requires |s| == 0 || (!IsSpace(s[0]) && !IsSpace(s[|s| - 1]))
    ensures Trim(s) == s
  {
    assert TrimStart(s) == s;
  }

  // ---------------------------------------------------------------------------
  // case mapping (ASCII)

  function LowerChar(c: char): char {
    if 'A' <= c <= 'Z' then (c as int + 32) as char else c
  }

  function UpperChar(c: char): char {
    if 'a' <= c <= 'z' then (c as int - 32) as char else c
  }

  /** `s.toLowerCase()` */
  function Lower(s: string): (r: string)
    ensures |r| == |s|
  {
    seq(|s|, i requires 0 <= i < |s| => LowerChar(s[i]))
  }

  /** Lower-casing works character by character, so it distributes over concatenation. */
  lemma LowerAppend(a: string, b: string)
    ensures Lower(a + b) == Lower(a) + Lower(b)
  {
  }

  /** `s.charAt(0).toUpperCase() + s.slice(1)` */
  function Capitalise(s: string): (r: string)
    ensures |r| == |s|
  {
    if |s| == 0 then s else [UpperChar(s[0])] + s[1..]
  }

  // ---------------------------------------------------------------------------
  // searching

  /** `t` occurs in `s` starting at index `i`. */
  predicate OccursAt(s: string, t: string, i: nat) {
    i + |t| <= |s| && s[i..i + |t|] == t
  }

  /** `s.indexOf(t, from)`, None for -1. */
  function IndexFrom(s: string, t: string, from: nat): (r: Option<nat>)
    decreases |s| - from
    ensures r.Some? ==> from <= r.value && OccursAt(s, t, r.value)
    ensures r.Some? ==> forall j :: from <= j < r.value ==> !OccursAt(s, t, j)
    ensures r.None? ==> forall j :: from <= j ==> !OccursAt(s, t, j)
  {
    if from + |t| > |s| then None
    else if OccursAt(s, t, from) then Some(from)
    else IndexFrom(s, t, from + 1)
  }

  /** `s.indexOf(t)`: the first occurrence. */
  function IndexOf(s: string, t: string): Option<nat> {
    IndexFrom(s, t, 0)
  }

  /** `s.includes(t)` */
  predicate Contains(s: string, t: string) {
    IndexOf(s, t).Some?
  }

  /** `s.startsWith(t)` */
  predicate StartsWith(s: string, t: string) {
    OccursAt(s, t, 0)
  }

  /** An occurrence anywhere means `includes` holds. */
  lemma OccursContains(s: string, t: string, i: nat)
    requires OccursAt(s, t, i)
    ensures Contains(s, t)
  {
  }

  /** Lower-casing both texts keeps an occurrence where it was. */
  lemma LowerOccurs(s: string, t: string, i: nat)
    requires OccursAt(s, t, i)
    ensures OccursAt(Lower(s), Lower(t), i)
  {
    forall k | 0 <= k < |t|
      ensures Lower(s)[i..i + |t|][k] == Lower(t)[k]
    {
      assert s[i + k] == s[i..i + |t|][k];
    }
  }

  /** `includes` holds exactly when there is an occurrence somewhere. */
  lemma ContainsMeansOccurs(s: string, t: string)
    requires Contains(s, t)
    ensures OccursAt(s, t, IndexOf(s, t).value)
  {
  }

  // ---------------------------------------------------------------------------
  // split

  /** `s.split(sep, 2)` for a separator that occurs in `s`: the text before its first
      occurrence, and the text after it up to the next occurrence (or to the end). */
  function SplitTwo(s: string, sep: string): (parts: (string, string))
    requires Contains(s, sep)
  {
    var i := IndexOf(s, sep).value;
    var rest := s[i + |sep|..];
    match IndexOf(rest, sep)
    case Some(j) => (s[..i], rest[..j])
    case None => (s[..i], rest)
  }

  /** Text that ends before the first occurrence of `t` does not contain `t`. */
  lemma NoOccurrenceInPrefix(s: string, t: string, i: nat)
    requires |t| > 0 && i <= |s|
    requires forall j :: 0 <= j < i ==> !OccursAt(s, t, j)
    ensures !Contains(s[..i], t)
  {
    forall k: nat ensures !OccursAt(s[..i], t, k) {
      if k + |t| <= i {
        assert !OccursAt(s, t, k);
        assert s[..i][k..k + |t|] == s[k..k + |t|];
      }
    }
  }

  /** An occurrence splits the text into what comes before it, it, and what follows. */
  lemma CutAtOccurrence(s: string, t: string, i: nat)
    requires OccursAt(s, t, i)
    ensures s == s[..i] + t + s[i + |t|..]
  {
  }

  /** The first part of `split(sep, 2)` is the text before the first separator. */
  lemma SplitTwoFirst(s: string, sep: string)
    requires |sep| > 0 && Contains(s, sep)
    ensures var a := SplitTwo(s, sep).0;
      !Contains(a, sep) && s == a + sep + s[|a| + |sep|..]
  {
    var i := IndexOf(s, sep).value;
    assert SplitTwo(s, sep).0 == s[..i];
    NoOccurrenceInPrefix(s, sep, i);
    CutAtOccurrence(s, sep, i);
  }

  /** The second part of `split(sep, 2)` runs from after the first separator to the next
      one, or to the end. */
  lemma SplitTwoSecond(s: string, sep: string)
    requires |sep| > 0 && Contains(s, sep)
    ensures var (a, b) := SplitTwo(s, sep);
      var rest := s[|a| + |sep|..];
      !Contains(b, sep) && (rest == b || StartsWith(rest, b + sep))
  {
    var i := IndexOf(s, sep).value;
    var rest := s[i + |sep|..];
    match IndexOf(rest, sep)
    case Some(j) =>
      assert SplitTwo(s, sep) == (s[..i], rest[..j]);
      NoOccurrenceInPrefix(rest, sep, j);
      CutAtOccurrence(rest, sep, j);
      assert rest[..j + |sep|] == rest[..j] + sep;
    case None =>
      assert SplitTwo(s, sep) == (s[..i], rest);
  }

  /** Neither part of `split(sep, 2)` contains the separator; the parts, rejoined with
      the separator, are a prefix of the text, and the text goes on with a second
      separator unless the second part runs to the end. */
  lemma SplitTwoParts(s: string, sep: string)
    requires |sep| > 0 && Contains(s, sep)
    ensures var (a, b) := SplitTwo(s, sep);
      && !Contains(a, sep) && !Contains(b, sep)
      && (s == a + sep + b || StartsWith(s, a + sep + b + sep))
  {
    var (a, b) := SplitTwo(s, sep);
    SplitTwoFirst(s, sep);
    SplitTwoSecond(s, sep);
    var rest := s[|a| + |sep|..];
    if rest != b {
      assert s == a + sep + rest;
      assert rest[..|b + sep|] == b + sep;
      assert s[..|a + sep + b + sep|] == a + sep + rest[..|b + sep|];
    }
  }

  /** `s.split(' ')`: the pieces between single spaces, empty pieces included. */
  function SplitSpace(s: string): (ws: seq<string>)
    decreases |s|
    ensures |ws| >= 1
    ensures forall k :: 0 <= k < |ws| ==> ' ' !in ws[k]
  {
    match IndexOf(s, " ")
    case None =>
      NoSpaceBefore(s, |s|);
      [s]
    case Some(i) =>
      NoSpaceBefore(s, i);
      assert ' ' !in s[..i];
      [s[..i]] + SplitSpace(s[i + 1..])
  }

  /** Where no space occurs as a one-character string, no space character occurs. */
  lemma NoSpaceBefore(s: string, to: nat)
    requires to <= |s|
    requires forall j :: 0 <= j < to ==> !OccursAt(s, " ", j)
    ensures forall j :: 0 <= j < to ==> s[j] != ' '
  {
    forall j | 0 <= j < to ensures s[j] != ' ' {
      assert !OccursAt(s, " ", j);
      assert s[j..j + 1] == [s[j]];
    }
  }

  /** `ws.join(' ')` */
  function JoinSpace(ws: seq<string>): string {
    if |ws| == 0 then ""
    else if |ws| == 1 then ws[0]
    else ws[0] + " " + JoinSpace(ws[1..])
  }

  /** Joining the pieces of `split(' ')` with spaces gives back the text. */
  lemma {:induction false} JoinSplit(s: string)
    ensures JoinSpace(SplitSpace(s)) == s
    decreases |s|
  {
    match IndexOf(s, " ")
    case None =>
    case Some(i) =>
      JoinSplit(s[i + 1..]);
      assert s[i..i + 1] == " ";
      assert s == s[..i] + " " + s[i + 1..];
  }

  /** Joining two non-empty runs of pieces is joining each and putting a space between. */
  lemma {:induction false} JoinAppend(a: seq<string>, b: seq<string>)
    requires |a| > 0 && |b| > 0
    ensures JoinSpace(a + b) == JoinSpace(a) + " " + JoinSpace(b)
    decreases |a|
  {
    if |a| == 1 {
      assert a + b == [a[0]] + b;
      assert (a + b)[1..] == b;
    } else {
      JoinAppend(a[1..], b);
      assert (a + b)[1..] == a[1..] + b;
    }
  }

  // ---------------------------------------------------------------------------
  // numbers

  /** The value of `c` as a digit in the given radix (2 to 36), if it is one. */
  function DigitVal(c: char, radix: nat): Option<nat> {
    var v: int :=
      if '0' <= c <= '9' then c as int - '0' as int
      else if 'a' <= c <= 'z' then c as int - 'a' as int + 10
      else if 'A' <= c <= 'Z' then c as int - 'A' as int + 10
      else 99;
    if 0 <= v < radix then Some(v) else None
  }

  /** Length of the longest prefix of `s` made of digits of the radix. */
  function DigitRun(s: string, radix: nat): (n: nat)
    ensures n <= |s|
  {
    if |s| > 0 && DigitVal(s[0], radix).Some? then 1 + DigitRun(s[1..], radix) else 0
  }

  /** The value of a run of digits in the given radix (a character that is not a digit
      of the radix never occurs where this is used, and would count as zero). */
  function RadixValue(s: string, radix: nat): nat {
    if |s| == 0 then 0
    else RadixValue(s[..|s| - 1], radix) * radix + DigitVal(s[|s| - 1], radix).GetOr(0)
  }

  /** The value of a run of decimal digits. */
  function DecimalValue(s: string): nat
    requires AllDigits(s)
  {
    RadixValue(s, 10)
  }

  /** The number `parseInt` reads after the sign: a `0x` or `0X` prefix selects radix
      16, and the longest run of digits of the radix that follows is read; None when
      there is no digit. */
  function ParseUnsigned(u: string): Option<nat> {
    var hex := |u| >= 2 && u[0] == '0' && (u[1] == 'x' || u[1] == 'X');
    var radix := if hex then 16 else 10;
    var ds := if hex then u[2..] else u;
    var n := DigitRun(ds, radix);
    if n == 0 then None else Some(RadixValue(ds[..n], radix))
  }

  /** The number read after one optional sign. */
  function ParseSigned(t: string): Option<int> {
    if |t| > 0 && t[0] == '-' then
      match ParseUnsigned(t[1..])
      case None => None
      case Some(v) => Some(-(v as int))
    else
      match ParseUnsigned(if |t| > 0 && t[0] == '+' then t[1..] else t)
      case None => None
      case Some(v) => Some(v as int)
  }

  /** JavaScript's `parseInt(x)` without a radix argument, for `x` a string or undefined
      (None); NaN is None. Leading white space and one sign are skipped, then the digits
      are read as `ParseUnsigned` does. Numbers are exact here (no rounding to the
      nearest double). */
  function ParseInt(x: Option<string>): Option<int> {
    match x
    case None => None
    case Some(s) => ParseSigned(TrimStart(s))
  }

  /** A run of decimal digits, then the end or a space: the digits are read. */
  lemma UnsignedDigitsThen(ds: string, rest: string)
    requires |ds| > 0 && AllDigits(ds)
    requires |rest| == 0 || rest[0] == ' '
    ensures ParseUnsigned(ds + rest) == Some(DecimalValue(ds))
  {
    var u := ds + rest;
    assert u[0] == ds[0];
    assert |u| >= 2 ==> u[1] == (if |ds| >= 2 then ds[1] else rest[0]);
    if |rest| == 0 {
      assert u == ds;
      DigitRunAll(ds);
    } else {
      DigitRunStops(ds, rest);
    }
    assert u[..|ds|] == ds;
  }

  /** On a non-empty run of decimal digits, `parseInt` gives its decimal value. */
  lemma ParseIntDigits(s: string)
    requires |s| > 0 && AllDigits(s)
    ensures ParseInt(Some(s)) == Some(DecimalValue(s))
  {
    ParsePlainDigits(s, "");
    assert s + "" == s;
  }

  lemma {:induction false} DigitRunAll(s: string)
    requires AllDigits(s)
    ensures DigitRun(s, 10) == |s|
  {
    if |s| > 0 {
      DigitRunAll(s[1..]);
    }
  }

  /** `parseInt` reads no number from a word that starts with a letter:
      a month name such as "january" gives NaN. */
  lemma ParseIntWord(s: string)
    requires |s| > 0 && 'a' <= LowerChar(s[0]) <= 'z'
    ensures ParseInt(Some(s)) == None
  {
    assert !IsSpace(s[0]);
    assert TrimStart(s) == s;
    assert DigitVal(s[0], 10).None?;
    assert ParseUnsigned(s).None?;
  }

  /** The character of a decimal digit. */
  function DigitChar(d: nat): (c: char)
    requires d < 10
    ensures IsDigit(c) && DigitVal(c, 10) == Some(d)
  {
    ('0' as int + d) as char
  }

  /** `String(n)` for a whole number that is not negative: its decimal digits. */
  function NatText(n: nat): (s: string)
    ensures |s| > 0 && AllDigits(s)
  {
    if n < 10 then [DigitChar(n)] else NatText(n / 10) + [DigitChar(n % 10)]
  }

  /** `String(n)` for a whole number: a minus sign before the digits of a negative one. */
  function IntText(n: int): (s: string)
    ensures |s| > 0
  {
    if n < 0 then "-" + NatText(-n) else NatText(n)
  }

  /** The digits `NatText` writes are read back as the same number. */
  lemma {:induction false} NatTextValue(n: nat)
    ensures DecimalValue(NatText(n)) == n
  {
    if n >= 10 {
      NatTextValue(n / 10);
      var a := NatText(n / 10);
      var s := a + [DigitChar(n % 10)];
      assert s[..|s| - 1] == a;
      assert DigitVal(s[|s| - 1], 10) == Some(n % 10);
      assert RadixValue(s, 10) == RadixValue(a, 10) * 10 + n % 10;
    } else {
      var s := NatText(n);
      assert s == [DigitChar(n)];
      assert s[..0] == [];
      assert DigitVal(s[0], 10) == Some(n);
      assert RadixValue(s, 10) == RadixValue([], 10) * 10 + n;
    }
  }

  /** A run of digits followed by a character that is not a digit: the run ends there. */
  lemma {:induction false} DigitRunStops(ds: string, rest: string)
    requires AllDigits(ds) && |rest| > 0 && DigitVal(rest[0], 10).None?
    ensures DigitRun(ds + rest, 10) == |ds|
  {
    if |ds| > 0 {
      assert (ds + rest)[1..] == ds[1..] + rest;
      DigitRunStops(ds[1..], rest);
    } else {
      assert ds + rest == rest;
    }
  }

  /** A run of decimal digits, then the end or a space: `parseInt` reads the digits. */
  lemma ParsePlainDigits(ds: string, rest: string)
    requires |ds| > 0 && AllDigits(ds)
    requires |rest| == 0 || rest[0] == ' '
    ensures ParseInt(Some(ds + rest)) == Some(DecimalValue(ds) as int)
  {
    UnsignedDigitsThen(ds, rest);
    var u := ds + rest;
    var c := u[0];
    assert c == ds[0] && '0' <= c <= '9';
    assert TrimStart(u) == u;
    assert ParseSigned(u) == match ParseUnsigned(u) case None => None case Some(v) => Some(v as int);
  }

  /** The same after a minus sign, read as a negative number. */
  lemma ParseNegativeDigits(ds: string, rest: string)
    requires |ds| > 0 && AllDigits(ds)
    requires |rest| == 0 || rest[0] == ' '
    ensures ParseInt(Some("-" + ds + rest)) == Some(-(DecimalValue(ds) as int))
  {
    UnsignedDigitsThen(ds, rest);
    var u := ds + rest;
    var s := "-" + ds + rest;
    assert s == "-" + u;
    assert s[1..] == u;
    assert TrimStart(s) == s;
    assert ParseSigned(s) == Some(-(DecimalValue(ds) as int));
  }

  /** `parseInt` of a text that begins with `String(n)` and goes on, if at all, after a
      space gives `n` back. */
  lemma ParseIntText(n: int, rest: string)
    requires |rest| == 0 || rest[0] == ' '
    ensures ParseInt(Some(IntText(n) + rest)) == Some(n)
  {
    if n < 0 {
      NatTextValue(-n);
      ParseNegativeDigits(NatText(-n), rest);
      assert IntText(n) + rest == "-" + NatText(-n) + rest;
    } else {
      NatTextValue(n);
      ParsePlainDigits(NatText(n), rest);
    }
  }
}
