/** The JavaScript string operations the core relies on, over `seq<char>`:
    `split`/`join` on one character, `toLowerCase`, `trim`, `startsWith`,
    `includes`, `parseInt` (base 10) and the decimal rendering of integers. */
module Text {
  import opened Base

  // ---------------------------------------------------------------- split / join

  /** `s.split(c)`: the pieces of `s` between occurrences of `c`; never empty. */
  function Split(s: string, c: char): (parts: seq<string>)
    ensures |parts| >= 1
    ensures forall i :: 0 <= i < |parts| ==> c !in parts[i]
  {
    if s == [] then [[]]
    else
      var rest := Split(s[1..], c);
      if s[0] == c then [[]] + rest
      else [[s[0]] + rest[0]] + rest[1..]
  }

  /** `parts.join(c)`. */
  function Join(parts: seq<string>, c: char): string
    requires |parts| >= 1
  {
    if |parts| == 1 then parts[0] else parts[0] + [c] + Join(parts[1..], c)
  }

  /** Joining the pieces back gives the original string. */
  lemma {:induction false} JoinSplit(s: string, c: char)
    ensures Join(Split(s, c), c) == s
  {
    if s != [] {
      var rest := Split(s[1..], c);
      JoinSplit(s[1..], c);
      if s[0] != c {
        var parts := Split(s, c);
        if |rest| == 1 {
          assert parts == [[s[0]] + rest[0]];
        } else {
          assert parts[1..] == rest[1..];
          assert Join(rest, c) == rest[0] + [c] + Join(rest[1..], c);
        }
      }
    }
  }

  /** Splitting a join of pieces free of `c` gives the pieces back. */
  lemma {:induction false} SplitJoin(parts: seq<string>, c: char)
    requires |parts| >= 1
    requires forall i :: 0 <= i < |parts| ==> c !in parts[i]
    ensures Split(Join(parts, c), c) == parts
  {
    if |parts| == 1 {
      SplitPiece(parts[0], c);
    } else {
      SplitJoin(parts[1..], c);
      SplitPieceThen(parts[0], c, Join(parts[1..], c));
      assert [parts[0]] + parts[1..] == parts;
    }
  }

  lemma {:induction false} SplitPiece(p: string, c: char)
    requires c !in p
    ensures Split(p, c) == [p]
  {
    if p != [] {
      SplitPiece(p[1..], c);
      assert [p[0]] + p[1..] == p;
    }
  }

  lemma {:induction false} SplitPieceThen(p: string, c: char, t: string)
    requires c !in p
    ensures Split(p + [c] + t, c) == [p] + Split(t, c)
  {
    if p == [] {
      assert p + [c] + t == [c] + t;
      assert ([c] + t)[1..] == t;
    } else {
      SplitPieceThen(p[1..], c, t);
      assert (p + [c] + t)[1..] == p[1..] + [c] + t;
      assert [p[0]] + p[1..] == p;
    }
  }

  // ---------------------------------------------------------------- prefixes and infixes

  /** `s.startsWith(prefix)`. */
  predicate StartsWith(s: string, prefix: string) {
    |prefix| <= |s| && s[..|prefix|] == prefix
  }

  /** `sub` occurs in `s` at position `i`. */
  predicate OccursAt(s: string, sub: string, i: int) {
    0 <= i && i + |sub| <= |s| && s[i..i + |sub|] == sub
  }

  /** `s.includes(sub)`: `sub` occurs somewhere in `s`. */
  predicate Contains(s: string, sub: string) {
    exists i | 0 <= i <= |s| :: OccursAt(s, sub, i)
  }

  /** The empty string is contained in every string. */
  lemma ContainsEmpty(s: string)
    ensures Contains(s, [])
  {
    assert OccursAt(s, [], 0);
  }

  // ---------------------------------------------------------------- SQL LIKE

  /** SQL `s LIKE p` with PostgreSQL's default escape character: `%` matches any run of
      characters, `_` any one character, `\` makes the next character literal, and
      every other character matches itself. A lone trailing `\` is read as itself. */
  predicate Like(s: string, p: string)
    decreases |s| + |p|
  {
    if p == [] then s == []
    else if p[0] == '%' then Like(s, p[1..]) || (s != [] && Like(s[1..], p))
    else if p[0] == '_' then s != [] && Like(s[1..], p[1..])
    else if p[0] == '\\' && |p| >= 2 then s != [] && s[0] == p[1] && Like(s[1..], p[2..])
    else s != [] && s[0] == p[0] && Like(s[1..], p[1..])
  }

  /** The characters `LIKE` gives a meaning of their own. */
  predicate IsLikeSpecial(ch: char) {
    ch == '%' || ch == '_' || ch == '\\'
  }

  /** `%q%`, the pattern a substring search binds. */
  function Infix(q: string): (p: string)
    ensures |p| == |q| + 2 && p[0] == '%' && p[|p| - 1] == '%' && p[1..|p| - 1] == q
  {
    "%" + q + "%"
  }

  /** A lone `%` matches every string. */
  lemma {:induction false} LikeAnything(s: string)
    ensures Like(s, "%")
  {
    if s != [] {
      LikeAnything(s[1..]);
    }
  }

  /** Some suffix of `s` matches `t`. */
  predicate SomeSuffixLike(s: string, t: string) {
    exists i | 0 <= i <= |s| :: Like(s[i..], t)
  }

  /** A leading `%` lets the rest of the pattern match any suffix. */
  lemma {:induction false} LikePercentThen(s: string, t: string)
    ensures Like(s, "%" + t) <==> SomeSuffixLike(s, t)
    decreases |s|
  {
    var p := "%" + t;
    assert p[0] == '%' && p[1..] == t;
    assert s[0..] == s;
    if s != [] {
      LikePercentThen(s[1..], t);
      if SomeSuffixLike(s[1..], t) {
        var i :| 0 <= i <= |s[1..]| && Like(s[1..][i..], t);
        assert s[1..][i..] == s[i + 1..];
      }
      if SomeSuffixLike(s, t) && !Like(s, t) {
        var i :| 0 <= i <= |s| && Like(s[i..], t);
        assert i > 0 && s[1..][i - 1..] == s[i..];
      }
    }
  }

  /** A pattern that starts with text free of special characters matches exactly the
      strings that start with that text and go on to match the rest. */
  lemma {:induction false} LikeLiteralThen(s: string, q: string, t: string)
    requires forall i :: 0 <= i < |q| ==> !IsLikeSpecial(q[i])
    ensures Like(s, q + t) <==> StartsWith(s, q) && Like(s[|q|..], t)
    decreases |q|
  {
    if q != [] {
      var p := q + t;
      assert p[0] == q[0] && p[1..] == q[1..] + t;
      if s != [] {
        LikeLiteralThen(s[1..], q[1..], t);
        assert StartsWith(s, q) <==> s[0] == q[0] && StartsWith(s[1..], q[1..]) by {
          if s[0] == q[0] && StartsWith(s[1..], q[1..]) {
            assert s[..|q|] == [s[0]] + s[1..][..|q| - 1];
          }
        }
        if |q| <= |s| {
          assert s[1..][|q| - 1..] == s[|q|..];
        }
      }
    } else {
      assert q + t == t;
    }
  }

  /** With no special character in the search, `name LIKE '%q%'` is `name.includes(q)`. */
  lemma LikeInfixIsContains(s: string, q: string)
    requires forall i :: 0 <= i < |q| ==> !IsLikeSpecial(q[i])
    ensures Like(s, Infix(q)) <==> Contains(s, q)
  {
    assert Infix(q) == "%" + (q + "%");
    LikePercentThen(s, q + "%");
    if SomeSuffixLike(s, q + "%") {
      var i :| 0 <= i <= |s| && Like(s[i..], q + "%");
      LikeLiteralThen(s[i..], q, "%");
      assert s[i..][..|q|] == s[i..i + |q|];
      assert OccursAt(s, q, i);
    }
    if Contains(s, q) {
      var i :| 0 <= i <= |s| && OccursAt(s, q, i);
      LikeLiteralThen(s[i..], q, "%");
      assert s[i..][..|q|] == s[i..i + |q|];
      LikeAnything(s[i..][|q|..]);
      assert Like(s[i..], q + "%");
    }
  }

  /** An underscore in the search is a wildcard: `'axb' LIKE '%a_b%'` holds although
      `"axb"` does not contain `"a_b"`. */
  lemma UnderscoreMatchesAnyChar()
    ensures Like("axb", Infix("a_b")) && !Contains("axb", "a_b")
  {
    var p := Infix("a_b");
    assert p == "%a_b%";
    assert p[1..] == "a_b%";
    assert Like("", "%") by { LikeAnything(""); }
    assert "axb"[1..] == "xb" && "xb"[1..] == "b" && "b"[1..] == "";
    assert "a_b%"[1..] == "_b%" && "_b%"[1..] == "b%" && "b%"[1..] == "%";
    assert Like("b", "b%");
    assert Like("xb", "_b%");
    assert Like("axb", "a_b%");
    forall i | 0 <= i <= 3 ensures !OccursAt("axb", "a_b", i) {
      if i == 0 { assert "axb"[0..3][1] != "a_b"[1]; }
    }
  }

  // ---------------------------------------------------------------- case and whitespace

  /** Lower-case of one character: ASCII and Latin-1 capitals (not the multiplication sign). */
  function LowerChar(ch: char): (r: char)
    ensures 'A' <= ch <= 'Z' ==> r as int == ch as int + 32
    ensures !('A' <= ch <= 'Z') && !('À' <= ch <= 'Þ' && ch != '×') ==> r == ch
  {
    if 'A' <= ch <= 'Z' || ('À' <= ch <= 'Þ' && ch != '×') then
      (ch as int + 32) as char
    else ch
  }

  /** `s.toLowerCase()`, character by character. */
  function ToLower(s: string): (r: string)
    ensures |r| == |s|
    ensures forall i :: 0 <= i < |s| ==> r[i] == LowerChar(s[i])
  {
    if s == [] then [] else [LowerChar(s[0])] + ToLower(s[1..])
  }

  /** Lower-casing twice is lower-casing once. */
  lemma ToLowerIdempotent(s: string)
    ensures ToLower(ToLower(s)) == ToLower(s)
  {
    var once := ToLower(s);
    assert forall i :: 0 <= i < |s| ==> LowerChar(once[i]) == once[i];
  }

  /** Upper-case of one character: ASCII and Latin-1 small letters (not the division sign). */
  function UpperChar(ch: char): (r: char)
    ensures 'a' <= ch <= 'z' ==> r as int == ch as int - 32 && LowerChar(r) == ch
  {
    if 'a' <= ch <= 'z' || ('à' <= ch <= 'þ' && ch != '÷') then
      (ch as int - 32) as char
    else ch
  }

  /** `s.charAt(0).toUpperCase() + s.slice(1)`. */
  function UpperFirst(s: string): (r: string)
    ensures |r| == |s|
  {
    if s == [] then [] else [UpperChar(s[0])] + s[1..]
  }

  /** Lower-casing a word whose first letter was capitalised gives the word back, when
      the word was lower-case and starts with an ASCII letter. */
  lemma LowerUpperFirst(s: string)
    requires s != [] && 'a' <= s[0] <= 'z'
    requires forall i :: 0 <= i < |s| ==> LowerChar(s[i]) == s[i]
    ensures ToLower(UpperFirst(s)) == s
  {
    var r := ToLower(UpperFirst(s));
    assert forall i :: 0 <= i < |s| ==> r[i] == s[i];
  }

  /** The white space and line terminators `trim` removes: the ASCII ones and the
      others Unicode defines. */
  predicate IsSpace(ch: char) {
    IsAsciiSpace(ch) || IsUnicodeSpace(ch)
  }

  /** Tab, line feed, vertical tab, form feed, carriage return and space. */
  predicate IsAsciiSpace(ch: char) {
    ch == ' ' || ch == '\t' || ch == '\n' || ch == '\r' || ch == '\U{B}' || ch == '\U{C}'
  }

  /** No-break space, the byte order mark, the other space separators (U+1680,
      U+2000-U+200A, U+202F, U+205F, U+3000) and the line and paragraph separators. */
  predicate IsUnicodeSpace(ch: char) {
    || ch == '\U{A0}' || ch == '\U{1680}' || '\U{2000}' <= ch <= '\U{200A}'
    || ch == '\U{2028}' || ch == '\U{2029}' || ch == '\U{202F}' || ch == '\U{205F}'
    || ch == '\U{3000}' || ch == '\U{FEFF}'
  }

  /** `s.trimStart()`. */
  function TrimStart(s: string): (r: string)
    ensures |r| <= |s| && r == s[|s| - |r|..]
    ensures r == [] || !IsSpace(r[0])
    ensures forall i :: 0 <= i < |s| - |r| ==> IsSpace(s[i])
  {
    if s != [] && IsSpace(s[0]) then TrimStart(s[1..]) else s
  }

  /** `s.trimEnd()`. */
  function TrimEnd(s: string): (r: string)
    ensures |r| <= |s| && r == s[..|r|]
    ensures r == [] || !IsSpace(r[|r| - 1])
    ensures forall i :: |r| <= i < |s| ==> IsSpace(s[i])
  {
    if s != [] && IsSpace(s[|s| - 1]) then TrimEnd(s[..|s| - 1]) else s
  }

  /** `s.trim()`. */
  function Trim(s: string): (r: string)
    ensures r == [] || (!IsSpace(r[0]) && !IsSpace(r[|r| - 1]))
    ensures Contains(s, r)
  {
    var t := TrimStart(s);
    var r := TrimEnd(t);
    assert r != [] ==> r[0] == t[0];
    assert s[|s| - |t|..][..|r|] == s[|s| - |t|..|s| - |t| + |r|];
    assert OccursAt(s, r, |s| - |t|);
    r
  }

  // ---------------------------------------------------------------- numbers

  predicate IsDigit(ch: char) { '0' <= ch <= '9' }

  function DigitValue(ch: char): nat
    requires IsDigit(ch)
  {
    ch as int - '0' as int
  }

  function DigitChar(d: nat): (ch: char)
    requires d < 10
    ensures IsDigit(ch) && DigitValue(ch) == d
  {
    ('0' as int + d) as char
  }

  /** Length of the longest all-digit prefix of `s`. */
  function LeadingDigits(s: string): (n: nat)
    ensures n <= |s|
    ensures forall i :: 0 <= i < n ==> IsDigit(s[i])
    ensures n < |s| ==> !IsDigit(s[n])
  {
    if s != [] && IsDigit(s[0]) then 1 + LeadingDigits(s[1..]) else 0
  }

  /** The number a string of decimal digits denotes. */
  function DigitsValue(ds: string): nat
    requires forall i :: 0 <= i < |ds| ==> IsDigit(ds[i])
  {
    if ds == [] then 0 else DigitsValue(ds[..|ds| - 1]) * 10 + DigitValue(ds[|ds| - 1])
  }

  /** The number denoted by the leading digits of `s`; `None` when there are none (NaN). */
  function LeadingNumber(s: string): Option<nat>
  {
    var n := LeadingDigits(s);
    if n == 0 then None else Some(DigitsValue(s[..n]))
  }

  /** `Number.parseInt(s)` (base 10): leading white space, an optional sign, then the
      longest run of digits; `None` stands for NaN. */
  function ParseInt(s: string): (r: Option<int>)
  {
    var t := TrimStart(s);
    var signed := t != [] && (t[0] == '-' || t[0] == '+');
    var body := if signed then t[1..] else t;
    match LeadingNumber(body)
    case None => None
    case Some(v) =>
      var n: int := v;
      Some(if signed && t[0] == '-' then -n else n)
  }

  /** A string that starts with a digit is read by its leading digits alone. */
  lemma ParseIntDigitStart(s: string)
    requires s != [] && IsDigit(s[0])
    ensures ParseInt(s) == Some(DigitsValue(s[..LeadingDigits(s)]))
  {
    assert !IsSpace(s[0]);
    assert TrimStart(s) == s;
    assert s[0] != '-' && s[0] != '+';
    assert LeadingDigits(s) >= 1;
    assert LeadingNumber(s) == Some(DigitsValue(s[..LeadingDigits(s)]));
  }

  /** Decimal rendering of a natural number, without leading zeros. */
  function NatToString(n: nat): (s: string)
    ensures |s| >= 1
    ensures forall i :: 0 <= i < |s| ==> IsDigit(s[i])
    ensures n < 10 ==> |s| == 1
  {
    if n < 10 then [DigitChar(n)] else NatToString(n / 10) + [DigitChar(n % 10)]
  }

  /** Template-literal rendering of an integer (`${n}`). */
  function IntToString(n: int): string
  {
    if n < 0 then "-" + NatToString(-n) else NatToString(n)
  }

  /** Reading back the digits of a rendered number gives the number. */
  lemma {:induction false} DigitsValueOfNatToString(n: nat)
    ensures DigitsValue(NatToString(n)) == n
  {
    if n >= 10 {
      DigitsValueOfNatToString(n / 10);
      var s := NatToString(n);
      assert s[..|s| - 1] == NatToString(n / 10);
    }
  }

  lemma {:induction false} LeadingDigitsOfDigits(s: string)
    requires forall i :: 0 <= i < |s| ==> IsDigit(s[i])
    ensures LeadingDigits(s) == |s|
  {
    if s != [] {
      LeadingDigitsOfDigits(s[1..]);
    }
  }

  /** `parseInt(String(n)) == n` for every natural number. */
  lemma ParseIntNatToString(n: nat)
    ensures ParseInt(NatToString(n)) == Some(n)
  {
    var s := NatToString(n);
    ParseIntDigitStart(s);
    LeadingDigitsOfDigits(s);
    assert s[..|s|] == s;
    DigitsValueOfNatToString(n);
  }

  /** Two-digit, zero-padded rendering (`padStart(2, '0')`). */
  function Pad2(n: nat): (s: string)
    requires n < 100
    ensures |s| == 2 && IsDigit(s[0]) && IsDigit(s[1])
  {
    [DigitChar(n / 10), DigitChar(n % 10)]
  }

  lemma DigitsValuePad2(n: nat)
    requires n < 100
    ensures DigitsValue(Pad2(n)) == n
  {
    var p := Pad2(n);
    var hi := [DigitChar(n / 10)];
    assert p[..|p| - 1] == hi;
    assert hi[..|hi| - 1] == [];
    assert DigitsValue(hi) == n / 10;
    assert DigitsValue(p) == (n / 10) * 10 + n % 10;
  }

  lemma LeadingDigitsPad2(n: nat, rest: string)
    requires n < 100
    requires rest == [] || !IsDigit(rest[0])
    ensures LeadingDigits(Pad2(n) + rest) == 2
  {
    var s := Pad2(n) + rest;
    assert s[1..][1..] == rest;
    assert LeadingDigits(rest) == 0;
  }

  /** A padded two-digit field read back with `parseInt`, followed by a non-digit. */
  lemma ParseIntPad2(n: nat, rest: string)
    requires n < 100
    requires rest == [] || !IsDigit(rest[0])
    ensures ParseInt(Pad2(n) + rest) == Some(n)
  {
    var s := Pad2(n) + rest;
    ParseIntDigitStart(s);
    LeadingDigitsPad2(n, rest);
    assert s[..2] == Pad2(n);
    DigitsValuePad2(n);
  }
}
