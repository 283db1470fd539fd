/**
 * Live formatting of the booking form's phone field: on every input event
 * the field's value is replaced by its digits, re-punctuated progressively
 * as `(ddd`, `(ddd) ddd` or `(ddd) ddd-dddd`, keeping at most ten digits.
 */
module Phone {
  import opened Text
  import opened Wrappers

  /** `value.replace(/\D/g, '')`: the ASCII digits of `s`, in order. */
  function Digits(s: string): (r: string)
    ensures |r| <= |s|
    ensures forall i :: 0 <= i < |r| ==> IsAsciiDigit(r[i])
  {
    if s == [] then []
    else (if IsAsciiDigit(s[0]) then [s[0]] else []) + Digits(s[1..])
  }

  /** The formatter of the phone field's `input` handler. */
  function FormatPhone(s: string): string {
    var d := Digits(s);
    if |d| == 0 then ""
    else if |d| <= 3 then "(" + d
    else if |d| <= 6 then "(" + d[..3] + ") " + d[3..]
    else "(" + d[..3] + ") " + d[3..6] + "-" + d[6..Min(|d|, 10)]
  }

  /** The fully punctuated number; every `d` marks a digit slot. */
  const Template: string := "(ddd) ddd-dddd"

  /**
   * A prefix of the template with every digit slot holding a digit, that
   * is empty or ends on a digit slot: the progressive shapes.
   */
  predicate IsPhoneShape(t: string) {
    |t| <= |Template| &&
    (forall i :: 0 <= i < |t| ==> if Template[i] == 'd' then IsAsciiDigit(t[i]) else t[i] == Template[i]) &&
    (t == [] || Template[|t| - 1] == 'd')
  }

  lemma {:induction false} DigitsConcat(a: string, b: string)
    ensures Digits(a + b) == Digits(a) + Digits(b)
  {
    if a == [] {
      assert a + b == b;
    } else {
      assert (a + b)[1..] == a[1..] + b;
      DigitsConcat(a[1..], b);
    }
  }

  lemma {:induction false} DigitsOfDigits(s: string)
    requires forall i :: 0 <= i < |s| ==> IsAsciiDigit(s[i])
    ensures Digits(s) == s
  {
    if s != [] {
      DigitsOfDigits(s[1..]);
    }
  }

  lemma DigitsOfPunctuation(p: string)
    requires forall i :: 0 <= i < |p| ==> !IsAsciiDigit(p[i])
    ensures Digits(p) == []
  {
    if p != [] {
      DigitsOfPunctuation(p[1..]);
    }
  }

  /** Digits of a punctuation string followed by a digit string. */
  lemma DigitsAfterPunctuation(p: string, d: string)
    requires forall i :: 0 <= i < |p| ==> !IsAsciiDigit(p[i])
    requires forall i :: 0 <= i < |d| ==> IsAsciiDigit(d[i])
    ensures Digits(p + d) == d
  {
    DigitsConcat(p, d);
    DigitsOfPunctuation(p);
    DigitsOfDigits(d);
  }

  lemma DigitsOfTwoGroups(d: string)
    requires 4 <= |d| <= 6
    requires forall i :: 0 <= i < |d| ==> IsAsciiDigit(d[i])
    ensures Digits("(" + d[..3] + ") " + d[3..]) == d
  {
    var a, b := "(" + d[..3], ") " + d[3..];
    DigitsAfterPunctuation("(", d[..3]);
    DigitsAfterPunctuation(") ", d[3..]);
    DigitsConcat(a, b);
    assert a + b == "(" + d[..3] + ") " + d[3..];
    assert d[..3] + d[3..] == d;
  }

  lemma DigitsOfThreeGroups(d: string)
    requires 7 <= |d| <= 10
    requires forall i :: 0 <= i < |d| ==> IsAsciiDigit(d[i])
    ensures Digits("(" + d[..3] + ") " + d[3..6] + "-" + d[6..]) == d
  {
    var a, b, c := "(" + d[..3], ") " + d[3..6], "-" + d[6..];
    DigitsAfterPunctuation("(", d[..3]);
    DigitsAfterPunctuation(") ", d[3..6]);
    DigitsAfterPunctuation("-", d[6..]);
    DigitsConcat(a + b, c);
    DigitsConcat(a, b);
    assert a + b + c == "(" + d[..3] + ") " + d[3..6] + "-" + d[6..];
    assert d[..3] + d[3..6] + d[6..] == d;
  }

  /** The formatter keeps exactly the first min(10, n) digits of its input, in order. */
  lemma FormatPhoneDigits(s: string)
    ensures var d := Digits(s); Digits(FormatPhone(s)) == d[..Min(|d|, 10)]
  {
    var d := Digits(s);
    var n := |d|;
    if n == 0 {
    } else if n <= 3 {
      DigitsAfterPunctuation("(", d);
    } else if n <= 6 {
      DigitsOfTwoGroups(d);
    } else {
      var m := Min(n, 10);
      var e := d[..m];
      DigitsOfThreeGroups(e);
      assert e[..3] == d[..3] && e[3..6] == d[3..6] && e[6..] == d[6..m];
    }
  }

  lemma ShapeOfTwoGroups(d: string)
    requires 4 <= |d| <= 6
    requires forall i :: 0 <= i < |d| ==> IsAsciiDigit(d[i])
    ensures IsPhoneShape("(" + d[..3] + ") " + d[3..])
  {
    var head := "(" + d[..3] + ") ";
    var t := head + d[3..];
    assert |head| == 6;
    forall i | 0 <= i < |t|
      ensures if Template[i] == 'd' then IsAsciiDigit(t[i]) else t[i] == Template[i]
    {
      if i < 6 { assert t[i] == head[i]; }
      else { assert t[i] == d[3..][i - 6] == d[i - 3]; }
    }
  }

  lemma ShapeOfThreeGroups(d: string)
    requires 7 <= |d| <= 10
    requires forall i :: 0 <= i < |d| ==> IsAsciiDigit(d[i])
    ensures IsPhoneShape("(" + d[..3] + ") " + d[3..6] + "-" + d[6..])
  {
    var head := "(" + d[..3] + ") " + d[3..6] + "-";
    var t := head + d[6..];
    assert |head| == 10;
    forall i | 0 <= i < |t|
      ensures if Template[i] == 'd' then IsAsciiDigit(t[i]) else t[i] == Template[i]
    {
      if i < 10 {
        assert t[i] == head[i];
        if 6 <= i < 9 { assert head[i] == d[i - 3]; }
      } else {
        assert t[i] == d[6..][i - 10] == d[i - 4];
      }
    }
  }

  /** Whatever the input, the formatted value has one of the progressive shapes. */
  lemma FormatPhoneShape(s: string)
    ensures IsPhoneShape(FormatPhone(s))
  {
    var d := Digits(s);
    if |d| == 0 {
    } else if |d| <= 3 {
      var t := "(" + d;
      forall i | 0 <= i < |t|
        ensures if Template[i] == 'd' then IsAsciiDigit(t[i]) else t[i] == Template[i]
      {
        if 0 < i { assert t[i] == d[i - 1]; }
      }
    } else if |d| <= 6 {
      ShapeOfTwoGroups(d);
    } else {
      var e := d[..Min(|d|, 10)];
      ShapeOfThreeGroups(e);
      assert e[..3] == d[..3] && e[3..6] == d[3..6] && e[6..] == d[6..Min(|d|, 10)];
    }
  }

  lemma ShapeFixedOneGroup(t: string)
    requires IsPhoneShape(t) && 2 <= |t| <= 4
    ensures FormatPhone(t) == t
  {
    assert t == "(" + t[1..];
    DigitsAfterPunctuation("(", t[1..]);
  }

  lemma ShapeFixedTwoGroups(t: string)
    requires IsPhoneShape(t) && 7 <= |t| <= 9
    ensures FormatPhone(t) == t
  {
    var d := t[1..4] + t[6..];
    assert d[..3] == t[1..4] && d[3..] == t[6..];
    assert t == "(" + d[..3] + ") " + d[3..];
    DigitsOfTwoGroups(d);
  }

  lemma ShapeFixedThreeGroups(t: string)
    requires IsPhoneShape(t) && 11 <= |t|
    ensures FormatPhone(t) == t
  {
    var d := t[1..4] + t[6..9] + t[10..];
    assert d[..3] == t[1..4] && d[3..6] == t[6..9] && d[6..] == t[10..];
    forall i | 0 <= i < |d| ensures IsAsciiDigit(d[i]) {
      if i < 3 { assert d[i] == t[i + 1]; }
      else if i < 6 { assert d[i] == t[i + 3]; }
      else { assert d[i] == t[i + 4]; }
    }
    assert t == "(" + d[..3] + ") " + d[3..6] + "-" + d[6..];
    assert |Template| == 14;
    DigitsOfThreeGroups(d);
    var m := Min(|d|, 10);
    assert m == |d|;
    assert d[6..] == d[6..|d|];
    assert d[6..m] == d[6..|d|];
  }

  /** A value already in a progressive shape is left exactly as it is. */
  lemma PhoneShapeFixed(t: string)
    requires IsPhoneShape(t)
    ensures FormatPhone(t) == t
  {
    if |t| == 0 {
    } else if |t| <= 4 {
      ShapeFixedOneGroup(t);
    } else if |t| <= 9 {
      ShapeFixedTwoGroups(t);
    } else {
      ShapeFixedThreeGroups(t);
    }
  }

  /** The values the formatter leaves alone are exactly the progressive shapes. */
  lemma FormatPhoneFixedIff(t: string)
    ensures FormatPhone(t) == t <==> IsPhoneShape(t)
  {
    if IsPhoneShape(t) {
      PhoneShapeFixed(t);
    }
    if FormatPhone(t) == t {
      FormatPhoneShape(t);
    }
  }

  /** Re-running the handler on its own output changes nothing. */
  lemma FormatPhoneIdempotent(s: string)
    ensures FormatPhone(FormatPhone(s)) == FormatPhone(s)
  {
    FormatPhoneShape(s);
    PhoneShapeFixed(FormatPhone(s));
  }

  /** Progressively longer inputs. */
  lemma FormatPhoneExamples()
    ensures FormatPhone("5") == "(5"
    ensures FormatPhone("555") == "(555"
    ensures FormatPhone("5551") == "(555) 1"
  {
    DigitsOfDigits("5");
    DigitsOfDigits("555");
    DigitsOfDigits("5551");
  }

  /** Ten digits fill the template; further digits are dropped. */
  lemma FormatPhoneTenDigits(ten: string)
    requires ten == "5551234567"
    ensures FormatPhone(ten) == "(555) 123-4567"
  {
    DigitsOfDigits(ten);
    assert ten[..3] == "555" && ten[3..6] == "123" && ten[6..10] == "4567";
  }
}
