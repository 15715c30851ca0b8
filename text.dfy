/** The JavaScript string operations the application relies on: `String(n)`, `padStart`,
    `parseInt(s, 10)`, `trim`, `toLowerCase`, `includes`, `split` and `join`. */
module Text {
  import opened Wrappers

  // ---------------------------------------------------------------- characters

  /** The ECMAScript WhiteSpace and LineTerminator code points: what `trim` removes and what
      `parseInt` skips before the number. */
  predicate IsWhitespace(c: char)
  {
    c == '\t' || c == '\n' || c == '\U{000B}' || c == '\U{000C}' || c == '\r' || c == ' ' ||
    c == '\U{00A0}' || c == '\U{1680}' || ('\U{2000}' <= c <= '\U{200A}') ||
    c == '\U{2028}' || c == '\U{2029}' || c == '\U{202F}' || c == '\U{205F}' ||
    c == '\U{3000}' || c == '\U{FEFF}'
  }

  predicate IsDigit(c: char)
  {
    '0' <= c <= '9'
  }

  predicate AllDigits(s: string)
  {
    forall i :: 0 <= i < |s| ==> IsDigit(s[i])
  }

  function DigitChar(d: nat): (c: char)
    requires d < 10
    ensures IsDigit(c) && c as int - '0' as int == d
  {
    ('0' as int + d) as char
  }

  function DigitValue(c: char): (d: nat)
    requires IsDigit(c)
    ensures d < 10 && DigitChar(d) == c
  {
    c as int - '0' as int
  }

  /** `c` repeated `k` times. */
  function Repeat(c: char, k: nat): (r: string)
    ensures |r| == k
    ensures forall i :: 0 <= i < k ==> r[i] == c
  {
    if k == 0 then [] else [c] + Repeat(c, k - 1)
  }

  // ---------------------------------------------------------------- numbers as text

  function Pow10(k: nat): (p: nat)
    ensures p >= 1
  {
    if k == 0 then 1 else 10 * Pow10(k - 1)
  }

  /** Decimal text of `n` without leading zeros, as `String(n)` gives it for a non-negative
      integer. */
  function NatToString(n: nat): (s: string)
    ensures |s| >= 1 && AllDigits(s)
    ensures s[0] == '0' ==> n == 0
  {
    if n < 10 then [DigitChar(n)] else NatToString(n / 10) + [DigitChar(n % 10)]
  }

  /** `String(i)` for any integer: a minus sign before the digits of a negative number. */
  function IntToString(i: int): string
  {
    if i < 0 then "-" + NatToString(-i) else NatToString(i)
  }

  /** The number a string of decimal digits denotes (leading zeros allowed). */
  function DigitsValue(s: string): nat
    requires AllDigits(s)
  {
    if s == [] then 0 else DigitsValue(s[..|s| - 1]) * 10 + DigitValue(s[|s| - 1])
  }

  /** A digit appended on the right multiplies the value so far by ten and adds its own. */
  lemma DigitsValueSnoc(s: string, c: char)
    requires AllDigits(s) && IsDigit(c)
    ensures AllDigits(s + [c]) && DigitsValue(s + [c]) == DigitsValue(s) * 10 + DigitValue(c)
  {
    assert (s + [c])[..|s|] == s;
  }

  /** Reading back the text of a number gives the number. */
  lemma {:induction false} ValueOfNatToString(n: nat)
    ensures DigitsValue(NatToString(n)) == n
  {
    if n >= 10 {
      var s := NatToString(n);
      assert s[..|s| - 1] == NatToString(n / 10);
      ValueOfNatToString(n / 10);
    }
  }

  lemma {:induction false} ValueOfZeros(k: nat)
    ensures AllDigits(Repeat('0', k)) && DigitsValue(Repeat('0', k)) == 0
  {
    if k > 0 {
      var z := Repeat('0', k);
      assert z[..k - 1] == Repeat('0', k - 1);
      ValueOfZeros(k - 1);
    }
  }

  /** Zeros in front of a digit string do not change its value. */
  lemma {:induction false} ValueIgnoresLeadingZeros(k: nat, s: string)
    requires AllDigits(s)
    ensures AllDigits(Repeat('0', k) + s)
    ensures DigitsValue(Repeat('0', k) + s) == DigitsValue(s)
  {
    var t := Repeat('0', k) + s;
    if s == [] {
      assert t == Repeat('0', k);
      ValueOfZeros(k);
    } else {
      assert t[..|t| - 1] == Repeat('0', k) + s[..|s| - 1];
      ValueIgnoresLeadingZeros(k, s[..|s| - 1]);
    }
  }

  lemma {:induction false} Pow10Monotone(a: nat, b: nat)
    requires a <= b
    ensures Pow10(a) <= Pow10(b)
  {
    if a < b {
      Pow10Monotone(a, b - 1);
    }
  }

  /** The text of `n` has `k` digits exactly when `10^(k-1) <= n < 10^k` (or `n` is zero). */
  lemma {:induction false} DigitCount(n: nat)
    ensures n < Pow10(|NatToString(n)|)
    ensures |NatToString(n)| > 1 ==> Pow10(|NatToString(n)| - 1) <= n
  {
    if n >= 10 {
      var k := |NatToString(n / 10)|;
      assert |NatToString(n)| == k + 1;
      DigitCount(n / 10);
      assert n / 10 < Pow10(k);
      assert n < 10 * (n / 10 + 1);
      assert 10 * (n / 10 + 1) <= 10 * Pow10(k);
      if k > 1 {
        assert Pow10(k - 1) <= n / 10;
        assert Pow10(k) == 10 * Pow10(k - 1) <= 10 * (n / 10) <= n;
      } else {
        assert Pow10(k) == 10;
      }
    }
  }

  // ---------------------------------------------------------------- padStart

  /** `s.padStart(width, fill)` with a one-character fill: the result only prepends copies of
      `fill`, and never truncates. */
  function PadStart(s: string, width: nat, fill: char): (r: string)
    ensures |r| == if |s| < width then width else |s|
    ensures r[|r| - |s|..] == s
    ensures forall i :: 0 <= i < |r| - |s| ==> r[i] == fill
  {
    if |s| < width then Repeat(fill, width - |s|) + s else s
  }

  /** `String(n).padStart(width, '0')`. */
  function ZeroPad(n: nat, width: nat): (r: string)
    ensures |r| >= 1 && |r| >= width && AllDigits(r)
  {
    PaddedDigits(NatToString(n), width);
    PadStart(NatToString(n), width, '0')
  }

  /** The padded text is all digits and reads back as the number. */
  lemma ZeroPadDigits(n: nat, width: nat)
    ensures AllDigits(ZeroPad(n, width)) && DigitsValue(ZeroPad(n, width)) == n
  {
    PaddedDigits(NatToString(n), width);
    ValueOfNatToString(n);
  }

  /** Padding a digit string with zeros keeps it a digit string of the same value. */
  lemma PaddedDigits(s: string, width: nat)
    requires AllDigits(s)
    ensures AllDigits(PadStart(s, width, '0'))
    ensures DigitsValue(PadStart(s, width, '0')) == DigitsValue(s)
  {
    if |s| < width {
      assert PadStart(s, width, '0') == Repeat('0', width - |s|) + s;
      ValueIgnoresLeadingZeros(width - |s|, s);
    }
  }

  /** Zero padding yields exactly `width` digits while the number fits in them, and more
      digits (the whole number) once it does not. */
  lemma ZeroPadWidth(n: nat, width: nat)
    requires width >= 1
    ensures n < Pow10(width) ==> |ZeroPad(n, width)| == width
    ensures n >= Pow10(width) ==> |ZeroPad(n, width)| > width && ZeroPad(n, width) == NatToString(n)
  {
    DigitsFit(n, width);
    var s := NatToString(n);
    assert ZeroPad(n, width) == PadStart(s, width, '0');
  }

  /** `n` fits in `width` digits exactly when it is below `10^width`. */
  lemma DigitsFit(n: nat, width: nat)
    requires width >= 1
    ensures n < Pow10(width) <==> |NatToString(n)| <= width
  {
    var k := |NatToString(n)|;
    DigitCount(n);
    if n < Pow10(width) && k > width {
      Pow10Monotone(width, k - 1);
    }
    if n >= Pow10(width) && k <= width {
      Pow10Monotone(k, width);
    }
  }

  /** Two zero-padded numbers of the same width are equal only if the numbers are. */
  lemma ZeroPadInjective(a: nat, b: nat, width: nat)
    requires ZeroPad(a, width) == ZeroPad(b, width)
    ensures a == b
  {
    ZeroPadDigits(a, width);
    ZeroPadDigits(b, width);
  }

  // ---------------------------------------------------------------- trim

  /** No whitespace at either end. */
  predicate Trimmed(s: string)
  {
    s == [] || (!IsWhitespace(s[0]) && !IsWhitespace(s[|s| - 1]))
  }

  /** Every character of `s` is whitespace. */
  predicate Blank(s: string)
  {
    forall i :: 0 <= i < |s| ==> IsWhitespace(s[i])
  }

  /** How many whitespace characters `s` starts with. */
  function LeadingBlanks(s: string): (k: nat)
    ensures k <= |s|
    ensures k < |s| ==> !IsWhitespace(s[k])
  {
    if s != [] && IsWhitespace(s[0]) then 1 + LeadingBlanks(s[1..]) else 0
  }

  /** Where the trailing whitespace of `s` begins. */
  function ContentEnd(s: string): (k: nat)
    ensures k <= |s|
    ensures k > 0 ==> !IsWhitespace(s[k - 1])
  {
    if s != [] && IsWhitespace(s[|s| - 1]) then ContentEnd(s[..|s| - 1]) else |s|
  }

  /** The characters before `LeadingBlanks(s)` are all whitespace. */
  lemma {:induction false} LeadingBlanksAreBlank(s: string, i: nat)
    requires i < LeadingBlanks(s)
    ensures IsWhitespace(s[i])
  {
    if i > 0 {
      LeadingBlanksAreBlank(s[1..], i - 1);
    }
  }

  /** The characters from `ContentEnd(s)` on are all whitespace. */
  lemma {:induction false} TrailingBlanksAreBlank(s: string, i: nat)
    requires ContentEnd(s) <= i < |s|
    ensures IsWhitespace(s[i])
  {
    if i < |s| - 1 {
      TrailingBlanksAreBlank(s[..|s| - 1], i);
    }
  }

  /** `s.trimStart()`: drops the leading whitespace and nothing else. */
  function TrimStart(s: string): (r: string)
    ensures r == [] || !IsWhitespace(r[0])
  {
    s[LeadingBlanks(s)..]
  }

  /** `s.trimEnd()`: drops the trailing whitespace and nothing else. */
  function TrimEnd(s: string): (r: string)
    ensures r == [] || !IsWhitespace(r[|r| - 1])
  {
    s[..ContentEnd(s)]
  }

  /** `s.trim()`: the part of `s` between its leading and its trailing whitespace. It has no
      whitespace at either end, and it is empty exactly when `s` is blank. */
  function Trim(s: string): (r: string)
    ensures Trimmed(r)
    ensures r == [] <==> Blank(s)
  {
    var t := TrimStart(s);
    TrimEndKeepsStart(t);
    TrimBlankness(s);
    TrimEnd(t)
  }

  /** Trimming the end of a string that starts with a non-blank leaves it trimmed. */
  lemma TrimEndKeepsStart(t: string)
    requires t == [] || !IsWhitespace(t[0])
    ensures Trimmed(TrimEnd(t))
  {
    var r := TrimEnd(t);
    if r != [] {
      assert r[0] == t[0];
    }
  }

  lemma TrimBlankness(s: string)
    ensures TrimEnd(TrimStart(s)) == [] <==> Blank(s)
  {
    var k := LeadingBlanks(s);
    var t := s[k..];
    assert TrimStart(s) == t;
    if TrimEnd(t) == [] {
      forall i | 0 <= i < |s| ensures IsWhitespace(s[i]) {
        if i < k {
          LeadingBlanksAreBlank(s, i);
        } else {
          TrailingBlanksAreBlank(t, i - k);
          assert t[i - k] == s[i];
        }
      }
    } else {
      assert t[0] == s[k];
    }
  }

  /** The trimmed text is the slice of `s` between its `i` leading whitespace characters
      and its trailing whitespace, and everything outside that slice is whitespace. */
  lemma TrimIsMiddle(s: string, i: nat, k: nat)
    requires i == LeadingBlanks(s) && k == ContentEnd(s[i..])
    ensures i + k <= |s| && Trim(s) == s[i..i + k]
    ensures Blank(s[..i]) && Blank(s[i + k..])
  {
    SliceOfSuffix(s, i, k);
    LeadingPartBlank(s, i);
    TrailingPartBlank(s, i, k);
  }

  lemma LeadingPartBlank(s: string, i: nat)
    requires i == LeadingBlanks(s)
    ensures Blank(s[..i])
  {
    forall m | 0 <= m < i ensures IsWhitespace(s[..i][m]) {
      LeadingBlanksAreBlank(s, m);
    }
  }

  lemma TrailingPartBlank(s: string, i: nat, k: nat)
    requires i <= |s| && k == ContentEnd(s[i..])
    ensures Blank(s[i + k..])
  {
    var u := s[i + k..];
    forall m | 0 <= m < |u| ensures IsWhitespace(u[m]) {
      TrailingBlanksAreBlank(s[i..], k + m);
      IndexInSuffix(s, i, i + k + m);
    }
  }

  lemma SliceOfSuffix(s: string, i: nat, k: nat)
    requires i + k <= |s|
    ensures s[i..][..k] == s[i..i + k]
  {
  }

  lemma IndexInSuffix(s: string, i: nat, m: nat)
    requires i <= m < |s|
    ensures s[i..][m - i] == s[m]
  {
  }

  /** Trimming a string without whitespace at either end changes nothing. */
  lemma TrimOfTrimmed(s: string)
    requires Trimmed(s)
    ensures Trim(s) == s
  {
    assert LeadingBlanks(s) == 0;
    assert TrimStart(s) == s;
    assert ContentEnd(s) == |s|;
  }

  /** A space before a trimmed, non-empty text is trimmed away. */
  lemma TrimAfterSpace(s: string)
    requires s != [] && Trimmed(s)
    ensures Trim([' '] + s) == s
  {
    var t := [' '] + s;
    assert t[1..] == s;
    assert LeadingBlanks(s) == 0;
    assert LeadingBlanks(t) == 1;
    assert TrimStart(t) == s;
    TrimOfTrimmed(s);
  }

  /** Trimming twice is trimming once. */
  lemma TrimIdempotent(s: string)
    ensures Trim(Trim(s)) == Trim(s)
  {
    TrimOfTrimmed(Trim(s));
  }

  // ---------------------------------------------------------------- toLowerCase

  /** ASCII letters only; other alphabets are not case-folded by this model. */
  function LowerChar(c: char): (d: char)
    ensures IsWhitespace(d) <==> IsWhitespace(c)
    ensures !('A' <= d <= 'Z')
  {
    if 'A' <= c <= 'Z' then (c as int + 32) as char else c
  }

  /** `s.toLowerCase()`, character by character. */
  function ToLower(s: string): (r: string)
    ensures |r| == |s|
    ensures forall i :: 0 <= i < |s| ==> r[i] == LowerChar(s[i])
  {
    if s == [] then [] else [LowerChar(s[0])] + ToLower(s[1..])
  }

  /** Lower-casing twice is lower-casing once. */
  lemma ToLowerIdempotent(s: string)
    ensures ToLower(ToLower(s)) == ToLower(s)
  {
  }

  /** Lower-casing keeps a string free of surrounding whitespace. */
  lemma ToLowerKeepsTrimmed(s: string)
    requires Trimmed(s)
    ensures Trimmed(ToLower(s))
  {
  }

  // ---------------------------------------------------------------- includes

  predicate StartsWith(s: string, prefix: string)
  {
    |prefix| <= |s| && s[..|prefix|] == prefix
  }

  /** `s.includes(sub)`. */
  predicate Contains(s: string, sub: string)
    decreases |s|
  {
    |sub| <= |s| && (StartsWith(s, sub) || Contains(s[1..], sub))
  }

  /** `sub` occurs in `s` starting at position `i`. */
  predicate OccursAt(s: string, sub: string, i: int)
  {
    0 <= i && i + |sub| <= |s| && s[i..i + |sub|] == sub
  }

  /** `includes` holds exactly when `sub` occurs at some position of `s`. */
  lemma {:induction false} ContainsIffOccurs(s: string, sub: string)
    ensures Contains(s, sub) <==> exists i :: OccursAt(s, sub, i)
    decreases |s|
  {
    if |sub| <= |s| && !StartsWith(s, sub) {
      ContainsIffOccurs(s[1..], sub);
      if Contains(s[1..], sub) {
        var i :| OccursAt(s[1..], sub, i);
        assert s[i + 1..i + 1 + |sub|] == s[1..][i..i + |sub|];
        assert OccursAt(s, sub, i + 1);
      } else {
        forall i | OccursAt(s, sub, i) ensures false {
          assert i != 0 by {
            assert !StartsWith(s, sub);
            assert s[..|sub|] == s[0..0 + |sub|];
          }
          var tail := s[1..];
          assert |tail| == |s| - 1;
          assert i - 1 + |sub| <= |tail|;
          assert tail[i - 1..i - 1 + |sub|] == s[i..i + |sub|];
          assert OccursAt(tail, sub, i - 1);
        }
      }
    } else if |sub| <= |s| {
      assert OccursAt(s, sub, 0);
    } else {
      forall i | OccursAt(s, sub, i) ensures false {
      }
    }
  }

  /** Every string includes the empty string. */
  lemma ContainsEmpty(s: string)
    ensures Contains(s, [])
  {
  }

  // ---------------------------------------------------------------- split and join

  /** `parts.join(sep)`. */
  function Join(parts: seq<string>, sep: string): string
  {
    if |parts| == 0 then [] else if |parts| == 1 then parts[0] else parts[0] + sep + Join(parts[1..], sep)
  }

  /** `s.split(sep)` for a one-character separator: the pieces between separators, in order.
      The empty string splits into one empty piece. `SplitPieces` shows that no piece holds
      the separator and that joining the pieces with it gives `s` back. */
  function Split(s: string, sep: char): (parts: seq<string>)
    ensures |parts| >= 1
  {
    if s == [] then [[]]
    else
      var rest := Split(s[1..], sep);
      if s[0] == sep then [[]] + rest else [[s[0]] + rest[0]] + rest[1..]
  }

  /** No piece of a split holds the separator, and the pieces joined with it are `s`. */
  lemma SplitPieces(s: string, sep: char)
    ensures forall i :: 0 <= i < |Split(s, sep)| ==> sep !in Split(s, sep)[i]
    ensures Join(Split(s, sep), [sep]) == s
  {
    SplitPiecesFree(s, sep);
    SplitPiecesJoin(s, sep);
  }

  lemma {:induction false} SplitPiecesFree(s: string, sep: char)
    ensures forall i :: 0 <= i < |Split(s, sep)| ==> sep !in Split(s, sep)[i]
  {
    if s != [] {
      var rest := Split(s[1..], sep);
      SplitPiecesFree(s[1..], sep);
      if s[0] != sep {
        var parts := [[s[0]] + rest[0]] + rest[1..];
        forall i | 0 <= i < |parts| ensures sep !in parts[i] {
          if i > 0 {
            assert parts[i] == rest[i];
          } else {
            assert forall x :: x in parts[0] ==> x == s[0] || x in rest[0];
          }
        }
      }
    }
  }

  lemma {:induction false} SplitPiecesJoin(s: string, sep: char)
    ensures Join(Split(s, sep), [sep]) == s
  {
    if s != [] {
      var rest := Split(s[1..], sep);
      SplitPiecesJoin(s[1..], sep);
      assert s == [s[0]] + s[1..];
      if s[0] == sep {
        var parts := [[]] + rest;
        assert parts[1..] == rest;
        assert Join(parts, [sep]) == [] + [sep] + Join(rest, [sep]);
      } else if |rest| > 1 {
        var parts := [[s[0]] + rest[0]] + rest[1..];
        assert parts[1..] == rest[1..];
        assert Join(rest, [sep]) == rest[0] + [sep] + Join(rest[1..], [sep]);
        assert Join(parts, [sep]) == ([s[0]] + rest[0]) + [sep] + Join(rest[1..], [sep]);
      }
    }
  }

  lemma SplitAtSeparator(t: string, sep: char)
    ensures Split([sep] + t, sep) == [[]] + Split(t, sep)
  {
    assert ([sep] + t)[1..] == t;
  }

  lemma SplitAtOther(c: char, t: string, sep: char)
    requires c != sep
    ensures Split([c] + t, sep) == [[c] + Split(t, sep)[0]] + Split(t, sep)[1..]
  {
    assert ([c] + t)[1..] == t;
  }

  lemma JoinFirst(parts: seq<string>, sep: string)
    requires |parts| >= 2
    ensures Join(parts, sep) == parts[0] + sep + Join(parts[1..], sep)
  {
  }

  /** Three pieces joined: the first, the separator, the second, the separator, the third. */
  lemma JoinThree(a: string, b: string, c: string, sep: string)
    ensures Join([a, b, c], sep) == a + sep + b + sep + c
  {
    JoinFirst([a, b, c], sep);
    assert [a, b, c][1..] == [b, c];
    JoinFirst([b, c], sep);
    assert [b, c][1..] == [c];
  }

  /** Splitting text that was joined from separator-free pieces gives the pieces back. */
  lemma {:induction false} SplitJoin(parts: seq<string>, sep: char)
    requires |parts| >= 1
    requires forall i :: 0 <= i < |parts| ==> sep !in parts[i]
    ensures Split(Join(parts, [sep]), sep) == parts
    decreases |parts|, |parts[0]|
  {
    if |parts| == 1 {
      SplitOfSeparatorFree(parts[0], sep);
    } else if parts[0] == [] {
      var tail := parts[1..];
      JoinFirst(parts, [sep]);
      assert Join(parts, [sep]) == [sep] + Join(tail, [sep]);
      SplitAtSeparator(Join(tail, [sep]), sep);
      SplitJoin(tail, sep);
      assert parts == [[]] + tail;
    } else {
      var c := parts[0][0];
      var shorter := [parts[0][1..]] + parts[1..];
      JoinPeel(parts, sep);
      PeelKeepsSeparatorFree(parts, sep);
      SplitAtOther(c, Join(shorter, [sep]), sep);
      SplitJoin(shorter, sep);
      assert shorter[0] == parts[0][1..] && shorter[1..] == parts[1..];
      assert parts[0] == [c] + parts[0][1..];
      assert parts == [[c] + shorter[0]] + shorter[1..];
    }
  }

  /** Joining pieces whose first piece is not empty starts with that piece's first character,
      followed by the join with that character removed. */
  lemma JoinPeel(parts: seq<string>, sep: char)
    requires |parts| >= 2 && parts[0] != []
    ensures Join(parts, [sep]) == [parts[0][0]] + Join([parts[0][1..]] + parts[1..], [sep])
  {
    var c, first, tail := parts[0][0], parts[0][1..], parts[1..];
    assert parts[0] == [c] + first;
    assert parts == [[c] + first] + tail;
    JoinCons([c] + first, tail, [sep]);
    JoinCons(first, tail, [sep]);
    PrependAssociates(c, first, [sep] + Join(tail, [sep]));
  }

  /** A head piece joined before at least one more piece. */
  lemma JoinCons(head: string, tail: seq<string>, sep: string)
    requires |tail| >= 1
    ensures Join([head] + tail, sep) == head + sep + Join(tail, sep)
  {
    assert ([head] + tail)[1..] == tail;
  }

  lemma PrependAssociates(c: char, a: string, b: string)
    ensures ([c] + a) + b == [c] + (a + b)
  {
  }

  lemma PeelKeepsSeparatorFree(parts: seq<string>, sep: char)
    requires |parts| >= 2 && parts[0] != []
    requires forall i :: 0 <= i < |parts| ==> sep !in parts[i]
    ensures parts[0][0] != sep
    ensures forall i :: 0 <= i < |[parts[0][1..]] + parts[1..]| ==> sep !in ([parts[0][1..]] + parts[1..])[i]
  {
    assert parts[0][0] in parts[0];
    var shorter := [parts[0][1..]] + parts[1..];
    forall i | 0 <= i < |shorter| ensures sep !in shorter[i] {
      if i == 0 {
        assert forall x :: x in parts[0][1..] ==> x in parts[0];
      } else {
        assert shorter[i] == parts[i];
      }
    }
  }

  lemma {:induction false} SplitOfSeparatorFree(s: string, sep: char)
    requires sep !in s
    ensures Split(s, sep) == [s]
  {
    if s != [] {
      assert s[0] in s;
      assert forall x :: x in s[1..] ==> x in s;
      SplitOfSeparatorFree(s[1..], sep);
      assert s == [s[0]] + s[1..];
    }
  }

  /** A string holding the separator splits into at least two pieces. */
  lemma {:induction false} SplitHasTwoPieces(s: string, sep: char)
    requires sep in s
    ensures |Split(s, sep)| >= 2
    decreases |s|
  {
    assert s == [s[0]] + s[1..];
    if s[0] == sep {
      SplitAtSeparator(s[1..], sep);
    } else {
      SplitHasTwoPieces(s[1..], sep);
      SplitAtOther(s[0], s[1..], sep);
    }
  }

  /** The first piece is the text before the first separator. */
  lemma {:induction false} SplitFirstPiece(a: string, sep: char, rest: string)
    requires sep !in a
    ensures Split(a + [sep] + rest, sep)[0] == a
    decreases |a|
  {
    if a == [] {
      assert a + [sep] + rest == [sep] + rest;
      SplitAtSeparator(rest, sep);
    } else {
      var t := a[1..] + [sep] + rest;
      assert a + [sep] + rest == [a[0]] + t;
      SplitFirstPiece(a[1..], sep, rest);
      SplitAtOther(a[0], t, sep);
      assert a == [a[0]] + a[1..];
    }
  }

  // ---------------------------------------------------------------- parseInt

  /** The longest prefix of `s` made of decimal digits. */
  function DigitPrefix(s: string): (r: string)
    ensures AllDigits(r) && |r| <= |s| && r == s[..|r|]
    ensures |r| < |s| ==> !IsDigit(s[|r|])
  {
    if s != [] && IsDigit(s[0]) then [s[0]] + DigitPrefix(s[1..]) else []
  }

  /** `parseInt(s, 10)`: skip leading whitespace, read an optional sign and then as many
      digits as there are; `None` stands for `NaN` (no digit at all). */
  function ParseInt(s: string): Option<int>
  {
    ParseSigned(TrimStart(s))
  }

  /** An optional sign, then the leading digits. */
  function ParseSigned(t: string): Option<int>
  {
    if |t| > 0 && t[0] == '-' then Negate(ParseDigits(t[1..]))
    else if |t| > 0 && t[0] == '+' then ParseDigits(t[1..])
    else ParseDigits(t)
  }

  /** The value of the leading digits, `None` when there are none. */
  function ParseDigits(t: string): Option<int>
  {
    if DigitPrefix(t) == [] then None else Some(DigitsValue(DigitPrefix(t)))
  }

  function Negate(r: Option<int>): Option<int>
  {
    if r.Some? then Some(-r.value) else None
  }

  /** `parseInt` reads the leading digits of a string and ignores whatever follows them. */
  lemma ParseIntReadsLeadingDigits(digits: string, rest: string)
    requires digits != [] && AllDigits(digits)
    requires rest == [] || !IsDigit(rest[0])
    ensures ParseInt(digits + rest) == Some(DigitsValue(digits))
  {
    var s := digits + rest;
    assert s[0] == digits[0];
    assert IsDigit(s[0]);
    DigitIsNotWhitespace(s[0]);
    assert TrimStart(s) == s;
    assert s[0] != '-' && s[0] != '+';
    DigitPrefixOf(digits, rest);
    assert ParseDigits(s) == Some(DigitsValue(digits));
  }

  lemma DigitIsNotWhitespace(c: char)
    requires IsDigit(c)
    ensures !IsWhitespace(c)
  {
  }

  lemma {:induction false} DigitPrefixOf(digits: string, rest: string)
    requires AllDigits(digits)
    requires rest == [] || !IsDigit(rest[0])
    ensures DigitPrefix(digits + rest) == digits
  {
    if digits != [] {
      assert (digits + rest)[1..] == digits[1..] + rest;
      DigitPrefixOf(digits[1..], rest);
    } else {
      assert digits + rest == rest;
    }
  }

  /** `parseInt` reads a whole digit string as its value. */
  lemma ParseIntOfDigits(s: string)
    requires s != [] && AllDigits(s)
    ensures ParseInt(s) == Some(DigitsValue(s))
  {
    ParseIntReadsLeadingDigits(s, []);
    assert s + [] == s;
  }

  /** `parseInt` reads back the text of a number. */
  lemma ParseIntOfNatToString(n: nat)
    ensures ParseInt(NatToString(n)) == Some(n)
  {
    ValueOfNatToString(n);
    ParseIntOfDigits(NatToString(n));
  }

  /** `parseInt` reads back a zero-padded number followed by text that does not start with
      a digit. */
  lemma ParseIntOfZeroPadThen(n: nat, width: nat, rest: string)
    requires rest == [] || !IsDigit(rest[0])
    ensures ParseInt(ZeroPad(n, width) + rest) == Some(n)
  {
    ZeroPadDigits(n, width);
    ParseIntReadsLeadingDigits(ZeroPad(n, width), rest);
  }

  /** `parseInt` reads back a zero-padded number. */
  lemma ParseIntOfZeroPad(n: nat, width: nat)
    ensures ParseInt(ZeroPad(n, width)) == Some(n)
  {
    ZeroPadDigits(n, width);
    ParseIntOfDigits(ZeroPad(n, width));
  }
}
