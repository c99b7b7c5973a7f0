/** The pieces of Python's string library that the generator relies on:
    `str.strip()`, `str.replace(" ", "%20")`, `sep.join(lines)` and the
    `:02d` format of a non-negative integer, each with the property that
    pins down what it means. */
module Text {

  /** The characters for which Python's `str.isspace()` is true: the ASCII
      controls TAB..CR and FS..US, SPACE, NEL, NO-BREAK SPACE and the
      Unicode space separators, LINE and PARAGRAPH SEPARATOR. */
  predicate IsSpace(c: char) {
    || ('\t' <= c <= '\r')
    || ('\U{1C}' <= c <= ' ')
    || c == '\U{85}'
    || c == '\U{A0}'
    || c == '\U{1680}'
    || ('\U{2000}' <= c <= '\U{200A}')
    || c == '\U{2028}'
    || c == '\U{2029}'
    || c == '\U{202F}'
    || c == '\U{205F}'
    || c == '\U{3000}'
  }

  /** Neither starts nor ends with whitespace. */
  predicate Trimmed(s: string) {
    s == [] || (!IsSpace(s[0]) && !IsSpace(s[|s| - 1]))
  }

  /** Python's `s.lstrip()`. */
  function StripLeft(s: string): string {
    if s != [] && IsSpace(s[0]) then StripLeft(s[1..]) else s
  }

  /** Python's `s.rstrip()`. */
  function StripRight(s: string): string {
    if s != [] && IsSpace(s[|s| - 1]) then StripRight(s[..|s| - 1]) else s
  }

  /** Python's `s.strip()`. */
  function Strip(s: string): string {
    StripRight(StripLeft(s))
  }

  /** lstrip keeps the longest suffix that is cut off only by whitespace
      and does not itself start with whitespace. */
  lemma {:induction false} StripLeftSpec(s: string)
    ensures |StripLeft(s)| <= |s| && StripLeft(s) == s[|s| - |StripLeft(s)|..]
    ensures forall k :: 0 <= k < |s| - |StripLeft(s)| ==> IsSpace(s[k])
    ensures StripLeft(s) == [] || !IsSpace(StripLeft(s)[0])
  {
    if s != [] && IsSpace(s[0]) {
      var t := s[1..];
      StripLeftSpec(t);
      var r := StripLeft(t);
      assert StripLeft(s) == r;
      assert s[|s| - |r|..] == t[|t| - |r|..];
      forall k | 0 <= k < |s| - |r| ensures IsSpace(s[k]) {
        if k > 0 {
          assert s[k] == t[k - 1];
        }
      }
    }
  }

  /** rstrip keeps the longest prefix that is cut off only by whitespace
      and does not itself end with whitespace. */
  lemma {:induction false} StripRightSpec(s: string)
    ensures |StripRight(s)| <= |s| && StripRight(s) == s[..|StripRight(s)|]
    ensures forall k :: |StripRight(s)| <= k < |s| ==> IsSpace(s[k])
    ensures StripRight(s) == [] || !IsSpace(StripRight(s)[|StripRight(s)| - 1])
  {
    if s != [] && IsSpace(s[|s| - 1]) {
      StripRightSpec(s[..|s| - 1]);
    }
  }

  /** strip leaves no whitespace at either end. */
  lemma StripTrimmed(s: string)
    ensures Trimmed(Strip(s))
  {
    var l := StripLeft(s);
    StripLeftSpec(s);
    StripRightSpec(l);
    var r := StripRight(l);
    if r != [] {
      assert r[0] == l[0];
    }
  }

  /** StripLeft cuts exactly the whitespace run that ends at `i`. */
  lemma {:induction false} StripLeftAt(s: string, i: nat)
    requires i <= |s|
    requires forall k :: 0 <= k < i ==> IsSpace(s[k])
    requires i == |s| || !IsSpace(s[i])
    ensures StripLeft(s) == s[i..]
  {
    if i > 0 {
      StripLeftAt(s[1..], i - 1);
    }
  }

  /** StripRight cuts exactly the whitespace run that starts at `j`. */
  lemma {:induction false} StripRightAt(s: string, j: nat)
    requires j <= |s|
    requires forall k :: j <= k < |s| ==> IsSpace(s[k])
    requires j == 0 || !IsSpace(s[j - 1])
    ensures StripRight(s) == s[..j]
  {
    if j < |s| {
      StripRightAt(s[..|s| - 1], j);
    }
  }

  /** `s.strip()` is the unique slice `s[i..j]` that is trimmed and is
      surrounded only by whitespace: any such slice is what Strip returns. */
  lemma StripUnique(s: string, i: nat, j: nat)
    requires i <= j <= |s|
    requires forall k :: 0 <= k < i ==> IsSpace(s[k])
    requires forall k :: j <= k < |s| ==> IsSpace(s[k])
    requires Trimmed(s[i..j])
    ensures Strip(s) == s[i..j]
  {
    if i == j {
      // The whole of s is whitespace.
      StripLeftAt(s, |s|);
      assert StripLeft(s) == [];
    } else {
      StripLeftAt(s, i);
      StripRightAt(s[i..], j - i);
    }
  }

  /** A string without whitespace at either end is left as it is. */
  lemma TrimmedStrip(s: string)
    requires Trimmed(s)
    ensures Strip(s) == s
  {
    assert s[0..|s|] == s;
    StripUnique(s, 0, |s|);
  }

  /** Strip only removes whitespace from the two ends. */
  lemma StripShape(s: string)
    ensures exists i, j ::
              && 0 <= i <= j <= |s| && Strip(s) == s[i..j]
              && (forall k :: 0 <= k < i ==> IsSpace(s[k]))
              && (forall k :: j <= k < |s| ==> IsSpace(s[k]))
  {
    var l := StripLeft(s);
    StripLeftSpec(s);
    StripRightSpec(l);
    var i := |s| - |l|;
    var j := i + |StripRight(l)|;
    assert Strip(s) == s[i..j];
    forall k | j <= k < |s|
      ensures IsSpace(s[k])
    {
      assert s[k] == l[k - i];
    }
  }

  /** Stripping twice is stripping once. */
  lemma StripIdempotent(s: string)
    ensures Strip(Strip(s)) == Strip(s)
  {
    var r := Strip(s);
    StripTrimmed(s);
    StripUnique(r, 0, |r|);
  }

  /** Python's `s.replace(" ", "%20")`. */
  function EscapeSpaces(s: string): string {
    if s == [] then []
    else (if s[0] == ' ' then "%20" else [s[0]]) + EscapeSpaces(s[1..])
  }

  /** Escaping leaves no space behind, changes nothing in text without
      spaces, and brings in no character but those of `s` and of `%20`. */
  lemma {:induction false} EscapeSpacesSpec(s: string)
    ensures ' ' !in EscapeSpaces(s)
    ensures ' ' !in s ==> EscapeSpaces(s) == s
    ensures forall k :: 0 <= k < |EscapeSpaces(s)| ==> EscapeSpaces(s)[k] in s || EscapeSpaces(s)[k] in "%20"
  {
    if s != [] {
      EscapeSpacesSpec(s[1..]);
      var r := EscapeSpaces(s);
      var head := if s[0] == ' ' then "%20" else [s[0]];
      assert r == head + EscapeSpaces(s[1..]);
      forall k | 0 <= k < |r| ensures r[k] in s || r[k] in "%20" {
        if k >= |head| {
          assert r[k] == EscapeSpaces(s[1..])[k - |head|];
        }
      }
    }
  }

  /** `EscapeSpaces` is `str.replace(" ", "%20")` for every text: split at
      the spaces, join with `%20`. */
  lemma {:induction false} EscapeIsJoinSplit(s: string)
    ensures EscapeSpaces(s) == Join(Split(s, ' '), "%20")
  {
    if s != [] {
      EscapeIsJoinSplit(s[1..]);
      var rest := Split(s[1..], ' ');
      if s[0] == ' ' {
        assert Split(s, ' ') == [[]] + rest;
        assert ([[]] + rest)[1..] == rest;
      } else {
        assert Split(s, ' ') == [[s[0]] + rest[0]] + rest[1..];
        if |rest| == 1 {
          assert Join(rest, "%20") == rest[0];
        } else {
          assert Join(rest, "%20") == rest[0] + "%20" + Join(rest[1..], "%20");
          assert ([[s[0]] + rest[0]] + rest[1..])[1..] == rest[1..];
        }
      }
    }
  }

  /** The decoding that reads every `%20` back as a space. */
  function UnescapeSpaces(s: string): string {
    if s == [] then []
    else if |s| >= 3 && s[0] == '%' && s[1] == '2' && s[2] == '0' then " " + UnescapeSpaces(s[3..])
    else [s[0]] + UnescapeSpaces(s[1..])
  }

  /** Escaping changes nothing but spaces: on text without `%` decoding
      gives the original back. */
  lemma {:induction false} UnescapeEscape(s: string)
    requires '%' !in s
    ensures UnescapeSpaces(EscapeSpaces(s)) == s
  {
    if s != [] {
      var rest := EscapeSpaces(s[1..]);
      UnescapeEscape(s[1..]);
      var e := EscapeSpaces(s);
      if s[0] == ' ' {
        assert e == "%20" + rest;
        assert e[0] == '%' && e[1] == '2' && e[2] == '0' && e[3..] == rest;
      } else {
        assert e == [s[0]] + rest;
        assert e[0] == s[0] != '%';
        assert e[1..] == rest;
      }
    }
  }

  /** Decoding `%20` brings back no character but spaces: a character other
      than a space that is not in the text is not in its decoding. */
  lemma {:induction false} UnescapeKeepsOut(s: string, c: char)
    requires c !in s && c != ' '
    ensures c !in UnescapeSpaces(s)
  {
    if s != [] {
      if |s| >= 3 && s[0] == '%' && s[1] == '2' && s[2] == '0' {
        UnescapeKeepsOut(s[3..], c);
      } else {
        UnescapeKeepsOut(s[1..], c);
      }
    }
  }

  /** Python's `sep.join(xs)`. */
  function Join(xs: seq<string>, sep: string): string {
    if |xs| == 0 then ""
    else if |xs| == 1 then xs[0]
    else xs[0] + sep + Join(xs[1..], sep)
  }

  /** Python's `s.split(c)` for a single separator character. */
  function Split(s: string, c: char): (r: seq<string>)
    ensures |r| >= 1
  {
    if s == [] then [[]]
    else
      var rest := Split(s[1..], c);
      if s[0] == c then [[]] + rest else [[s[0]] + rest[0]] + rest[1..]
  }

  lemma {:induction false} SplitNoSeparator(a: string, c: char)
    requires c !in a
    ensures Split(a, c) == [a]
  {
    if a != [] {
      SplitNoSeparator(a[1..], c);
      assert [a[0]] + a[1..] == a;
    }
  }

  lemma {:induction false} SplitAtFirstSeparator(a: string, b: string, c: char)
    requires c !in a
    ensures Split(a + [c] + b, c) == [a] + Split(b, c)
  {
    if a == [] {
      assert (a + [c] + b)[1..] == b;
    } else {
      SplitAtFirstSeparator(a[1..], b, c);
      assert (a + [c] + b)[1..] == a[1..] + [c] + b;
      assert [a[0]] + a[1..] == a;
    }
  }

  /** Splitting a join on the separator gives the pieces back, provided no
      piece contains the separator. */
  lemma {:induction false} SplitJoin(xs: seq<string>, c: char)
    requires |xs| >= 1
    requires forall k :: 0 <= k < |xs| ==> c !in xs[k]
    ensures Split(Join(xs, [c]), c) == xs
  {
    if |xs| == 1 {
      SplitNoSeparator(xs[0], c);
    } else {
      SplitJoin(xs[1..], c);
      SplitAtFirstSeparator(xs[0], Join(xs[1..], [c]), c);
      assert [xs[0]] + xs[1..] == xs;
    }
  }

  /** Joining `xs + [x]` puts `x` after the join of `xs`, behind one separator. */
  lemma {:induction false} JoinSnoc(xs: seq<string>, x: string, sep: string)
    requires |xs| >= 1
    ensures Join(xs + [x], sep) == Join(xs, sep) + sep + x
  {
    if |xs| == 1 {
      assert (xs + [x])[1..] == [x];
    } else {
      assert (xs + [x])[1..] == xs[1..] + [x];
      JoinSnoc(xs[1..], x, sep);
    }
  }

  // ---- Decimal numbers -----------------------------------------------------

  predicate IsDigit(c: char) {
    '0' <= c <= '9'
  }

  function DigitChar(d: nat): (c: char)
    requires d < 10
    ensures IsDigit(c)
  {
    (48 + d) as char
  }

  function DigitValue(c: char): nat {
    if IsDigit(c) then (c as int) - 48 else 0
  }

  /** Python's `str(n)` for a non-negative integer: decimal digits, most
      significant first, without leading zeros. */
  function Decimal(n: nat): (r: string)
    ensures |r| >= 1
  {
    if n < 10 then [DigitChar(n)] else Decimal(n / 10) + [DigitChar(n % 10)]
  }

  /** `str(n)` is all digits and has no leading zero. */
  lemma {:induction false} DecimalDigits(n: nat)
    ensures forall k :: 0 <= k < |Decimal(n)| ==> IsDigit(Decimal(n)[k])
    ensures |Decimal(n)| >= 2 ==> Decimal(n)[0] != '0'
  {
    if n >= 10 {
      DecimalDigits(n / 10);
      assert Decimal(n) == Decimal(n / 10) + [DigitChar(n % 10)];
    }
  }

  /** Python's `int(s)` on a string of decimal digits. */
  function ParseDecimal(s: string): nat {
    if s == [] then 0 else 10 * ParseDecimal(s[..|s| - 1]) + DigitValue(s[|s| - 1])
  }

  /** Python's `f"{n:02d}"`: at least two digits, padded with a leading zero. */
  function Pad2(n: nat): string {
    if n < 10 then ['0', DigitChar(n)] else Decimal(n)
  }

  lemma {:induction false} ParseDecimalOfDecimal(n: nat)
    ensures ParseDecimal(Decimal(n)) == n
  {
    if n >= 10 {
      ParseDecimalOfDecimal(n / 10);
      var s := Decimal(n);
      assert s[..|s| - 1] == Decimal(n / 10);
    }
  }

  /** The zero-padded form reads back as the number it came from. */
  lemma ParsePad2(n: nat)
    ensures ParseDecimal(Pad2(n)) == n
    ensures forall k :: 0 <= k < |Pad2(n)| ==> IsDigit(Pad2(n)[k])
  {
    if n < 10 {
      var p := Pad2(n);
      assert p[..1] == ['0'];
      assert ParseDecimal(['0']) == 0;
      assert DigitValue(DigitChar(n)) == n;
    } else {
      ParseDecimalOfDecimal(n);
      DecimalDigits(n);
    }
  }

  /** Distinct numbers get distinct padded forms. */
  lemma Pad2Injective(m: nat, n: nat)
    requires Pad2(m) == Pad2(n)
    ensures m == n
  {
    ParsePad2(m);
    ParsePad2(n);
  }

  /** The padded form has exactly two digits just when the number is below
      one hundred; from 100 on it is three digits or more. */
  lemma Pad2Length(n: nat)
    ensures |Pad2(n)| == 2 <==> n <= 99
    ensures n >= 100 ==> |Pad2(n)| >= 3
  {
    if n >= 10 {
      var q := n / 10;
      assert |Decimal(n)| == |Decimal(q)| + 1;
      if n >= 100 {
        assert q >= 10;
        assert |Decimal(q)| == |Decimal(q / 10)| + 1;
      } else {
        assert q < 10;
      }
    }
  }
}
