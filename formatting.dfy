/** Display of the predicted charge: the integer written in decimal with
    commas between thousands groups (the "," format option of Python's
    format-spec mini-language), every comma then replaced by a space, and the
    currency suffix " DH" appended. */
module Formatting {

  datatype Option<T> = None | Some(value: T)

  /** The currency suffix written after the amount. */
  const Unit: string := " DH"

  predicate IsDigit(c: char)
  {
    '0' <= c <= '9'
  }

  predicate AllDigits(s: string)
  {
    forall i :: 0 <= i < |s| ==> IsDigit(s[i])
  }

  function DigitChar(d: nat): (c: char)
    requires d < 10
    ensures IsDigit(c)
    ensures DigitValue(c) == d
  {
    ('0' as int + d) as char
  }

  function DigitValue(c: char): (d: nat)
    requires IsDigit(c)
    ensures d < 10
  {
    c as int - '0' as int
  }

  function Abs(n: int): (a: nat)
  {
    if n < 0 then -n else n
  }

  /** Decimal digits of a natural number, most significant first, without
      leading zeros ("0" for zero). */
  function Digits(n: nat): (s: string)
    ensures |s| > 0 && AllDigits(s)
    ensures s[0] == '0' ==> n == 0
    decreases n
  {
    if n < 10 then [DigitChar(n)] else Digits(n / 10) + [DigitChar(n % 10)]
  }

  /** The sign written before the digits. */
  function Sign(n: int): (sign: string)
  {
    if n < 0 then "-" else ""
  }

  /** The plain decimal form of an integer (what Python's str gives). */
  function Decimal(n: int): (d: string)
  {
    Sign(n) + Digits(Abs(n))
  }

  /** Groups of three digits counted from the right, joined by `sep`. */
  function Group(ds: string, sep: char): (g: string)
    decreases |ds|
  {
    if |ds| <= 3 then ds else Group(ds[..|ds| - 3], sep) + [sep] + ds[|ds| - 3..]
  }

  /** The "," format option: sign, then digits grouped by commas. */
  function CommaGrouped(n: int): (r: string)
    ensures Remove(r, ',') == Decimal(n)
  {
    var ds := Digits(Abs(n));
    DigitsFree(ds, ',');
    GroupContents(ds, ',');
    RemoveAppend(Sign(n), Group(ds, ','), ',');
    RemoveNone(Sign(n), ',');
    Sign(n) + Group(Digits(Abs(n)), ',')
  }

  /** str.replace with one-character arguments: every `from` becomes `to`. */
  function Replace(s: string, from: char, to: char): (r: string)
    ensures |r| == |s|
    ensures forall i :: 0 <= i < |s| && s[i] == from ==> r[i] == to
    ensures forall i :: 0 <= i < |s| && s[i] != from ==> r[i] == s[i]
  {
    seq(|s|, i requires 0 <= i < |s| => if s[i] == from then to else s[i])
  }

  /** The text shown for a charge. */
  function Display(n: int): (shown: string)
    ensures shown == Sign(n) + Group(Digits(Abs(n)), ' ') + Unit
  {
    var ds := Digits(Abs(n));
    DigitsFree(ds, ',');
    GroupReplace(ds, ',', ' ');
    ReplaceAppend(Sign(n) + Group(ds, ','), Unit, ',', ' ');
    ReplaceAppend(Sign(n), Group(ds, ','), ',', ' ');
    ReplaceNone(Sign(n), ',', ' ');
    ReplaceNone(Unit, ',', ' ');
    Replace(CommaGrouped(n) + Unit, ',', ' ')
  }

  /** The string with every occurrence of `c` removed. */
  function Remove(s: string, c: char): (r: string)
  {
    if s == [] then [] else (if s[0] == c then [] else [s[0]]) + Remove(s[1..], c)
  }

  /** The digits read back as a number, most significant first. */
  function DigitsValue(s: string): (v: nat)
    requires AllDigits(s)
    decreases |s|
  {
    if s == [] then 0 else DigitsValue(s[..|s| - 1]) * 10 + DigitValue(s[|s| - 1])
  }

  /** Reads an optional minus sign followed by at least one digit. */
  function ParseDecimal(s: string): (r: Option<int>)
  {
    if |s| > 0 && s[0] == '-' then
      (if |s| > 1 && AllDigits(s[1..]) then Some(0 - DigitsValue(s[1..])) else None)
    else if |s| > 0 && AllDigits(s) then Some(DigitsValue(s))
    else None
  }

  /** The amount part of a displayed charge: everything before " DH". */
  function Amount(shown: string): (amount: string)
    requires |shown| >= |Unit|
  {
    shown[..|shown| - |Unit|]
  }

  // ---------------------------------------------------------------------
  // Digits and their reading
  // ---------------------------------------------------------------------

  /** Reading the digits of a number gives the number back. */
  lemma {:induction false} DigitsRoundTrip(n: nat)
    ensures DigitsValue(Digits(n)) == n
    decreases n
  {
    var s := Digits(n);
    if n < 10 {
      assert s[..|s| - 1] == [];
    } else {
      assert s[..|s| - 1] == Digits(n / 10);
      DigitsRoundTrip(n / 10);
    }
  }

  function Pow10(k: nat): (p: nat)
    ensures p >= 1
  {
    if k == 0 then 1 else 10 * Pow10(k - 1)
  }

  /** A digit string of length k reads as a number below 10^k, and at least
      10^(k-1) when it does not start with '0'. */
  lemma {:induction false} DigitsValueRange(s: string)
    requires |s| > 0 && AllDigits(s)
    ensures DigitsValue(s) < Pow10(|s|)
    ensures s[0] != '0' ==> DigitsValue(s) >= Pow10(|s| - 1)
    decreases |s|
  {
    var p := s[..|s| - 1];
    if |s| > 1 {
      assert p[0] == s[0];
      DigitsValueRange(p);
    } else {
      assert p == [];
      assert s[0] != '0' ==> DigitValue(s[0]) >= 1;
    }
  }

  /** A canonical digit string (no leading zero unless it is "0") is the
      decimal form of the number it reads as. */
  lemma {:induction false} CanonicalDigits(s: string)
    requires |s| > 0 && AllDigits(s)
    requires s[0] == '0' ==> |s| == 1
    ensures Digits(DigitsValue(s)) == s
    decreases |s|
  {
    var v := DigitsValue(s);
    var p := s[..|s| - 1];
    var last := s[|s| - 1];
    if |s| == 1 {
      assert p == [];
      assert DigitsValue(p) == 0;
      assert v == DigitValue(last);
      assert DigitChar(v) == last;
      assert s == [last];
    } else {
      assert p[0] == s[0];
      DigitsValueRange(p);
      var pv := DigitsValue(p);
      assert pv >= 1;
      assert v == pv * 10 + DigitValue(last);
      assert v / 10 == pv && v % 10 == DigitValue(last);
      CanonicalDigits(p);
      assert DigitChar(v % 10) == last;
      assert s == p + [last];
    }
  }

  // ---------------------------------------------------------------------
  // Grouping
  // ---------------------------------------------------------------------

  /** No character of `s` is `c`. */
  predicate Free(s: string, c: char)
  {
    forall i :: 0 <= i < |s| ==> s[i] != c
  }

  /** `sep` stands exactly at the positions 4, 8, 12, ... counted from the
      end of `g`, i.e. `g` is groups of three separated by single `sep`s,
      after a leading group. */
  predicate EveryFourth(g: string, sep: char)
  {
    forall i :: 0 <= i < |g| ==> (g[i] == sep <==> (|g| - i) % 4 == 0)
  }

  /** One unfolding of Group on a string longer than one group. */
  lemma GroupStep(ds: string, sep: char)
    requires |ds| > 3
    ensures Group(ds, sep) == Group(ds[..|ds| - 3], sep) + [sep] + ds[|ds| - 3..]
  {
  }

  /** Appending a separator and a separator-free group of three keeps the
      separators at every fourth position from the end. */
  lemma EveryFourthStep(p: string, back: string, sep: char)
    requires EveryFourth(p, sep)
    requires |back| == 3 && Free(back, sep)
    ensures EveryFourth(p + [sep] + back, sep)
  {
    var g := p + [sep] + back;
    forall i | 0 <= i < |g|
      ensures g[i] == sep <==> (|g| - i) % 4 == 0
    {
      if i < |p| {
        assert g[i] == p[i];
        assert |g| - i == (|p| - i) + 4;
      } else if i > |p| {
        assert g[i] == back[i - |p| - 1];
      }
    }
  }

  /** Grouping k digits gives k + (k-1)/3 characters, a length that is not a
      multiple of four: the leading group has one to three digits. */
  lemma {:induction false} GroupLength(ds: string, sep: char)
    requires |ds| > 0
    ensures |Group(ds, sep)| == |ds| + (|ds| - 1) / 3
    ensures |Group(ds, sep)| % 4 != 0
    decreases |ds|
  {
    if |ds| > 3 {
      GroupStep(ds, sep);
      GroupLength(ds[..|ds| - 3], sep);
    }
  }

  /** The shape of a grouped digit string: the separator stands exactly at
      every fourth position counted from the end. */
  lemma {:induction false} GroupShape(ds: string, sep: char)
    requires Free(ds, sep)
    ensures EveryFourth(Group(ds, sep), sep)
    decreases |ds|
  {
    if |ds| > 3 {
      var front, back := ds[..|ds| - 3], ds[|ds| - 3..];
      assert Free(front, sep) by {
        forall i | 0 <= i < |front| ensures front[i] != sep { assert front[i] == ds[i]; }
      }
      assert Free(back, sep) by {
        forall i | 0 <= i < |back| ensures back[i] != sep { assert back[i] == ds[|ds| - 3 + i]; }
      }
      GroupShape(front, sep);
      GroupStep(ds, sep);
      EveryFourthStep(Group(front, sep), back, sep);
    } else {
      forall i | 0 <= i < |ds| ensures ds[i] == sep <==> (|ds| - i) % 4 == 0 { }
    }
  }

  /** Both parts of a split at the last group keep a property of the
      whole: no separator. */
  lemma FreeSplit(ds: string, sep: char)
    requires |ds| > 3 && Free(ds, sep)
    ensures Free(ds[..|ds| - 3], sep) && Free(ds[|ds| - 3..], sep)
  {
    var front, back := ds[..|ds| - 3], ds[|ds| - 3..];
    forall i | 0 <= i < |front| ensures front[i] != sep { assert front[i] == ds[i]; }
    forall i | 0 <= i < |back| ensures back[i] != sep { assert back[i] == ds[|ds| - 3 + i]; }
  }

  /** Removing the separators from one grouping step. */
  lemma RemoveStep(p: string, back: string, sep: char)
    requires Free(back, sep)
    ensures Remove(p + [sep] + back, sep) == Remove(p, sep) + back
  {
    assert p + [sep] + back == p + ([sep] + back);
    RemoveAppend(p, [sep] + back, sep);
    assert ([sep] + back)[1..] == back;
    RemoveNone(back, sep);
  }

  /** Grouping only inserts separators: removing them gives the digits back. */
  lemma {:induction false} GroupContents(ds: string, sep: char)
    requires Free(ds, sep)
    ensures Remove(Group(ds, sep), sep) == ds
    decreases |ds|
  {
    if |ds| > 3 {
      var front, back := ds[..|ds| - 3], ds[|ds| - 3..];
      FreeSplit(ds, sep);
      GroupStep(ds, sep);
      GroupContents(front, sep);
      RemoveStep(Group(front, sep), back, sep);
      assert front + back == ds;
    } else {
      RemoveNone(ds, sep);
    }
  }

  /** Grouping with one separator and then replacing it by another is
      grouping with the other. */
  lemma {:induction false} GroupReplace(ds: string, sep: char, to: char)
    requires Free(ds, sep)
    ensures Replace(Group(ds, sep), sep, to) == Group(ds, to)
    decreases |ds|
  {
    if |ds| > 3 {
      var front, back := ds[..|ds| - 3], ds[|ds| - 3..];
      FreeSplit(ds, sep);
      GroupStep(ds, sep);
      GroupStep(ds, to);
      var p := Group(front, sep);
      GroupReplace(front, sep, to);
      ReplaceAppend(p + [sep], back, sep, to);
      ReplaceAppend(p, [sep], sep, to);
      ReplaceNone(back, sep, to);
      assert Replace([sep], sep, to) == [to];
    } else {
      ReplaceNone(ds, sep, to);
    }
  }

  // ---------------------------------------------------------------------
  // Helpers about Replace and Remove
  // ---------------------------------------------------------------------

  lemma ReplaceAppend(a: string, b: string, from: char, to: char)
    ensures Replace(a + b, from, to) == Replace(a, from, to) + Replace(b, from, to)
  {
  }

  lemma ReplaceNone(s: string, from: char, to: char)
    requires Free(s, from)
    ensures Replace(s, from, to) == s
  {
  }

  lemma {:induction false} RemoveAppend(a: string, b: string, c: char)
    ensures Remove(a + b, c) == Remove(a, c) + Remove(b, c)
    decreases |a|
  {
    if a != [] {
      assert (a + b)[0] == a[0];
      assert (a + b)[1..] == a[1..] + b;
      RemoveAppend(a[1..], b, c);
    } else {
      assert a + b == b;
    }
  }

  lemma {:induction false} RemoveNone(s: string, c: char)
    requires Free(s, c)
    ensures Remove(s, c) == s
    decreases |s|
  {
    if s != [] {
      RemoveNone(s[1..], c);
    }
  }

  // ---------------------------------------------------------------------
  // Properties of the displayed text
  // ---------------------------------------------------------------------

  /** The text always ends with " DH" and never contains a comma. */
  lemma DisplaySuffix(n: int)
    ensures |Display(n)| > |Unit|
    ensures Display(n)[|Display(n)| - |Unit|..] == Unit
    ensures forall i :: 0 <= i < |Display(n)| ==> Display(n)[i] != ','
  {
  }

  /** Dropping " DH" and every space leaves exactly the plain decimal form. */
  lemma DisplayStrip(n: int)
    ensures |Display(n)| >= |Unit|
    ensures Remove(Amount(Display(n)), ' ') == Decimal(n)
  {
    var ds := Digits(Abs(n));
    var d := Display(n);
    assert Amount(d) == Sign(n) + Group(ds, ' ');
    RemoveAppend(Sign(n), Group(ds, ' '), ' ');
    RemoveNone(Sign(n), ' ');
    DigitsFree(ds, ' ');
    GroupContents(ds, ' ');
  }

  /** The plain decimal form reads back as the same integer. */
  lemma DecimalRoundTrip(n: int)
    ensures ParseDecimal(Decimal(n)) == Some(n)
  {
    var ds := Digits(Abs(n));
    DigitsRoundTrip(Abs(n));
    var d := Decimal(n);
    if n < 0 {
      assert d == ['-'] + ds;
      assert d[1..] == ds;
      assert ParseDecimal(d) == Some(0 - DigitsValue(ds));
    } else {
      assert d == ds;
      assert IsDigit(ds[0]);
      assert ParseDecimal(d) == Some(DigitsValue(ds));
    }
  }

  /** Every string the parser accepts in canonical form is the decimal form
      of the integer it reads as: the two are inverse on canonical text. */
  lemma ParseDecimalCanonical(s: string)
    requires |s| > 0
    requires ParseDecimal(s).Some?
    requires s[0] == '-' ==> s[1] != '0'
    requires s[0] != '-' ==> (s[0] == '0' ==> |s| == 1)
    ensures Decimal(ParseDecimal(s).value) == s
  {
    if s[0] == '-' {
      var t := s[1..];
      CanonicalDigits(t);
      DigitsValueRange(t);
      assert s == "-" + t;
    } else {
      CanonicalDigits(s);
    }
  }

  /** The displayed text, stripped of its suffix and spaces, reads back as
      the charge. */
  lemma DisplayRoundTrip(n: int)
    ensures |Display(n)| >= |Unit|
    ensures ParseDecimal(Remove(Amount(Display(n)), ' ')) == Some(n)
  {
    DisplayStrip(n);
    DecimalRoundTrip(n);
  }

  /** Two different charges are never displayed alike. */
  lemma DisplayInjective(a: int, b: int)
    requires Display(a) == Display(b)
    ensures a == b
  {
    DisplayRoundTrip(a);
    DisplayRoundTrip(b);
  }

  /** After the sign, the amount consists of digit groups separated by single
      spaces: the first group has one to three digits, every later group
      exactly three, and spaces sit exactly at every fourth position counted
      from the end. */
  lemma DisplayGrouping(n: int)
    ensures |Display(n)| >= |Sign(n)| + |Unit|
    ensures var body := Display(n)[|Sign(n)|..|Display(n)| - |Unit|];
            && |body| % 4 != 0
            && EveryFourth(body, ' ')
            && DigitsOr(body, ' ')
  {
    var ds := Digits(Abs(n));
    DigitsFree(ds, ' ');
    GroupLength(ds, ' ');
    GroupShape(ds, ' ');
    GroupDigits(ds, ' ');
    assert Display(n)[|Sign(n)|..|Display(n)| - |Unit|] == Group(ds, ' ');
  }

  /** Every character of `g` is a digit or `sep`. */
  predicate DigitsOr(g: string, sep: char)
  {
    forall i :: 0 <= i < |g| ==> g[i] == sep || IsDigit(g[i])
  }

  lemma DigitsFree(ds: string, sep: char)
    requires AllDigits(ds) && !IsDigit(sep)
    ensures Free(ds, sep)
  {
  }

  /** Grouping introduces no character other than the separator. */
  lemma {:induction false} GroupDigits(ds: string, sep: char)
    requires DigitsOr(ds, sep)
    ensures DigitsOr(Group(ds, sep), sep)
    decreases |ds|
  {
    if |ds| > 3 {
      var front, back := ds[..|ds| - 3], ds[|ds| - 3..];
      assert DigitsOr(front, sep) by {
        forall i | 0 <= i < |front| ensures front[i] == sep || IsDigit(front[i]) { assert front[i] == ds[i]; }
      }
      assert DigitsOr(back, sep) by {
        forall i | 0 <= i < |back| ensures back[i] == sep || IsDigit(back[i]) { assert back[i] == ds[|ds| - 3 + i]; }
      }
      GroupDigits(front, sep);
      GroupStep(ds, sep);
      var p := Group(front, sep);
      var g := p + [sep] + back;
      forall i | 0 <= i < |g| ensures g[i] == sep || IsDigit(g[i])
      {
        if i < |p| {
          assert g[i] == p[i];
        } else if i > |p| {
          assert g[i] == back[i - |p| - 1];
        }
      }
    }
  }

  /** The charge of the end-to-end example is shown as "95 000 DH". */
  lemma DisplayExample95000()
    ensures Display(95000) == "95 000 DH"
  {
    assert Digits(95000) == "95000";
    GroupStep("95000", ' ');
    assert "95000"[..2] == "95" && "95000"[2..] == "000";
  }

  lemma DigitsOfMillion()
    ensures Digits(1234567) == "1234567"
  {
    assert Digits(1234) == "1234";
    assert Digits(12345) == Digits(1234) + ['5'];
    assert Digits(123456) == Digits(12345) + ['6'];
    assert Digits(1234567) == Digits(123456) + ['7'];
  }

  lemma GroupOfMillion()
    ensures Group("1234567", ' ') == "1 234 567"
  {
    GroupStep("1234567", ' ');
    assert "1234567"[..4] == "1234" && "1234567"[4..] == "567";
    GroupStep("1234", ' ');
    assert "1234"[..1] == "1" && "1234"[1..] == "234";
  }

  /** Millions get two separators. */
  lemma DisplayExampleMillion()
    ensures Display(1234567) == "1 234 567 DH"
  {
    DigitsOfMillion();
    GroupOfMillion();
  }

  /** A negative charge keeps its sign in front of the first group. */
  lemma DisplayExampleNegative()
    ensures Display(-1234) == "-1 234 DH"
  {
    assert Digits(1234) == "1234";
    GroupStep("1234", ' ');
    assert "1234"[..1] == "1" && "1234"[1..] == "234";
  }

  /** Three digits or fewer are shown without any separator. */
  lemma DisplayExampleShort()
    ensures Display(999) == "999 DH"
    ensures Display(0) == "0 DH"
  {
  }
}
