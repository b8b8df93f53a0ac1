/** String helpers shared by the signature grammar and the address checks:
    `str.split` on one separator, its inverse `sep.join`, decimal digit strings,
    Python's `int(str)` and `"%s" % n` for ints. */
module Text {

  datatype Option<T> = None | Some(value: T)

  predicate IsDigit(c: char) { '0' <= c <= '9' }

  predicate AllDigits(s: string) { forall i :: 0 <= i < |s| ==> IsDigit(s[i]) }

  /** A decimal numeral without superfluous leading zeros. */
  predicate Canonical(s: string) { |s| > 0 && AllDigits(s) && (s[0] == '0' ==> |s| == 1) }

  function DigitChar(d: nat): char
    requires d < 10
  {
    ('0' as int + d) as char
  }

  /** The value of a decimal digit string (the empty string counts as 0). */
  function DigitsValue(s: string): nat
    requires AllDigits(s)
    decreases |s|
  {
    if s == [] then 0
    else DigitsValue(s[..|s| - 1]) * 10 + (s[|s| - 1] as int - '0' as int)
  }

  /** The canonical decimal numeral of n. */
  function DecimalText(n: nat): (r: string)
    ensures |r| > 0 && AllDigits(r)
    decreases n
  {
    if n < 10 then [DigitChar(n)] else DecimalText(n / 10) + [DigitChar(n % 10)]
  }

  /** Reading back a printed number gives the number, and what is printed is canonical. */
  lemma {:induction false} DecimalTextValue(n: nat)
    ensures DigitsValue(DecimalText(n)) == n
    ensures Canonical(DecimalText(n))
    decreases n
  {
    if n >= 10 {
      DecimalTextValue(n / 10);
      var t := DecimalText(n);
      assert t[..|t| - 1] == DecimalText(n / 10);
      assert t[0] == DecimalText(n / 10)[0];
    }
  }

  lemma {:induction false} LeadingDigitPositive(s: string)
    requires AllDigits(s) && |s| > 0 && s[0] != '0'
    ensures DigitsValue(s) > 0
    decreases |s|
  {
    if |s| > 1 {
      LeadingDigitPositive(s[..|s| - 1]);
    }
  }

  /** Printing the value of a canonical numeral gives the numeral back. */
  lemma {:induction false} CanonicalRoundTrip(s: string)
    requires Canonical(s)
    ensures DecimalText(DigitsValue(s)) == s
    decreases |s|
  {
    if |s| > 1 {
      var init := s[..|s| - 1];
      LeadingDigitPositive(init);
      CanonicalRoundTrip(init);
      assert s == init + [s[|s| - 1]];
    }
  }

  /** Numbers up to 255 print with at most three digits. */
  lemma ShortDecimal(n: nat)
    requires n <= 255
    ensures |DecimalText(n)| <= 3
  {
    if n >= 10 {
      if n >= 100 {
        assert DecimalText(n / 10) == DecimalText(n / 100) + [DigitChar(n / 10 % 10)];
      }
    }
  }

  /** Python's `int(s)` on a string: an optional sign followed by one or more
      ASCII digits; anything else raises ValueError (None here). */
  function ParseInt(s: string): (r: Option<int>)
    ensures r.Some? <==> (|s| > 0 && AllDigits(s)) || (|s| > 1 && (s[0] == '+' || s[0] == '-') && AllDigits(s[1..]))
  {
    if |s| > 0 && AllDigits(s) then Some(DigitsValue(s))
    else if |s| > 1 && s[0] == '+' && AllDigits(s[1..]) then Some(DigitsValue(s[1..]))
    else if |s| > 1 && s[0] == '-' && AllDigits(s[1..]) then Some(-(DigitsValue(s[1..]) as int))
    else None
  }

  /** Python's `"%s" % n` for an int. */
  function IntText(n: int): string
  {
    if n < 0 then "-" + DecimalText(-n) else DecimalText(n)
  }

  /** `int("%s" % n) == n`. */
  lemma IntTextRoundTrip(n: int)
    ensures ParseInt(IntText(n)) == Some(n)
  {
    if n < 0 {
      DecimalTextValue(-n);
      assert IntText(n)[1..] == DecimalText(-n);
    } else {
      DecimalTextValue(n);
    }
  }

  /** Python's `s.split(sep)`: the maximal separator-free pieces, left to right;
      `"".split(sep) == [""]`. */
  function Split(s: string, sep: char): (r: seq<string>)
    ensures |r| >= 1
    decreases |s|
  {
    if s == [] then [""]
    else if s[0] == sep then [""] + Split(s[1..], sep)
    else var rest := Split(s[1..], sep); [[s[0]] + rest[0]] + rest[1..]
  }

  /** Python's `sep.join(parts)`. */
  function Join(parts: seq<string>, sep: char): string
    requires |parts| >= 1
    decreases |parts|
  {
    if |parts| == 1 then parts[0] else parts[0] + [sep] + Join(parts[1..], sep)
  }

  /** No piece produced by split contains the separator. */
  lemma {:induction false} SplitPiecesFree(s: string, sep: char)
    ensures forall i :: 0 <= i < |Split(s, sep)| ==> sep !in Split(s, sep)[i]
    decreases |s|
  {
    if s != [] {
      SplitPiecesFree(s[1..], sep);
    }
  }

  /** Joining the pieces of a split gives back the string. */
  lemma {:induction false} JoinSplit(s: string, sep: char)
    ensures Join(Split(s, sep), sep) == s
    decreases |s|
  {
    if s != [] {
      JoinSplit(s[1..], sep);
      var rest := Split(s[1..], sep);
      if s[0] != sep {
        var r := Split(s, sep);
        if |rest| == 1 {
          assert r == [[s[0]] + rest[0]];
        } else {
          assert r[1..] == rest[1..];
          assert Join(rest, sep) == rest[0] + [sep] + Join(rest[1..], sep);
        }
      }
    }
  }

  /** Splitting a join of separator-free pieces gives back the pieces. */
  lemma {:induction false} SplitJoin(parts: seq<string>, sep: char)
    requires |parts| >= 1
    requires forall i :: 0 <= i < |parts| ==> sep !in parts[i]
    ensures Split(Join(parts, sep), sep) == parts
    decreases |parts|
  {
    if |parts| == 1 {
      SplitFree(parts[0], [], sep);
    } else {
      SplitJoin(parts[1..], sep);
      SplitFree(parts[0], Join(parts[1..], sep), sep);
      assert parts == [parts[0]] + parts[1..];
    }
  }

  /** A separator-free prefix becomes the first piece (or the whole string's only piece). */
  lemma {:induction false} SplitFree(a: string, b: string, sep: char)
    requires sep !in a
    ensures b == [] ==> Split(a, sep) == [a]
    ensures Split(a + [sep] + b, sep) == [a] + Split(b, sep)
    decreases |a|
  {
    if a == [] {
      assert a + [sep] + b == [sep] + b;
      assert ([sep] + b)[1..] == b;
    } else {
      SplitFree(a[1..], b, sep);
      assert (a + [sep] + b)[1..] == a[1..] + [sep] + b;
      assert [a[0]] + a[1..] == a;
      if b == [] {
        assert Split(a, sep) == [[a[0]] + Split(a[1..], sep)[0]] + Split(a[1..], sep)[1..];
      }
    }
  }

  /** Appending a non-separator to a string extends its last piece. */
  lemma {:induction false} SplitSnoc(s: string, c: char, sep: char)
    requires c != sep
    ensures var p := Split(s, sep); Split(s + [c], sep) == p[..|p| - 1] + [p[|p| - 1] + [c]]
    decreases |s|
  {
    if s == [] {
      assert [c][1..] == [];
      assert [c] + "" == [c];
      assert Split([c], sep) == [[c] + Split([], sep)[0]] + Split([], sep)[1..];
      assert s + [c] == [c];
    } else {
      SplitSnoc(s[1..], c, sep);
      assert (s + [c])[1..] == s[1..] + [c];
      var p := Split(s[1..], sep);
      if s[0] != sep {
        if |p| == 1 {
          assert ([s[0]] + p[0]) + [c] == [s[0]] + (p[0] + [c]);
        } else {
          assert Split(s, sep)[1..] == p[1..];
        }
      }
    }
  }

  /** If every piece of a split is made of digits, the string is made of digits
      and separators. */
  lemma {:induction false} DigitPieces(s: string, sep: char)
    requires forall i :: 0 <= i < |Split(s, sep)| ==> AllDigits(Split(s, sep)[i])
    ensures forall i :: 0 <= i < |s| ==> s[i] == sep || IsDigit(s[i])
    decreases |s|
  {
    if s != [] {
      var rest := Split(s[1..], sep);
      if s[0] == sep {
        assert forall i :: 0 <= i < |rest| ==> rest[i] == Split(s, sep)[i + 1];
      } else {
        var head := Split(s, sep)[0];
        assert head == [s[0]] + rest[0];
        assert forall j :: 0 <= j < |rest[0]| ==> rest[0][j] == head[j + 1];
        assert forall i :: 1 <= i < |rest| ==> rest[i] == Split(s, sep)[i];
        assert IsDigit(head[0]);
      }
      DigitPieces(s[1..], sep);
      assert forall i :: 1 <= i < |s| ==> s[i] == s[1..][i - 1];
    }
  }
}
