/** Numeric entry on a kiosk: what key presses can leave in the field, and what the field is worth in kurus. */
module Numpad {
  import opened LineKey

  // ---------------------------------------------------------------- digits

  predicate IsDigit(c: char) {
    '0' <= c <= '9'
  }

  ghost predicate Digits(s: string) {
    forall i :: 0 <= i < |s| ==> IsDigit(s[i])
  }

  function Value(s: string): nat
    requires Digits(s)
  {
    if s == [] then 0 else Value(s[..|s| - 1]) * 10 + (s[|s| - 1] as int - '0' as int)
  }

  function DigitOf(d: nat): char
    requires d < 10
  {
    '0' + d as char
  }

  function Decimal(n: nat): (s: string)
    ensures Digits(s) && s != []
  {
    if n < 10 then [DigitOf(n)] else Decimal(n / 10) + [DigitOf(n % 10)]
  }

  lemma {:induction false} DecimalReadsBack(n: nat)
    ensures Value(Decimal(n)) == n
  {
    if n >= 10 {
      DecimalReadsBack(n / 10);
      var s := Decimal(n);
      assert s[..|s| - 1] == Decimal(n / 10);
    }
  }

  function Power10(k: nat): nat {
    if k == 0 then 1 else 10 * Power10(k - 1)
  }

  // ---------------------------------------------------------------- key presses

  datatype Key = Digit(c: char) | DoubleZero | Comma | Backspace

  datatype Mode = Money | Integer | Pin

  const MONEY_MAX_INT_DIGITS := 7
  const MONEY_DECIMALS := 2

  predicate KeyEnabled(mode: Mode, key: Key) {
    match key
    case Comma => mode.Money?
    case DoubleZero => !mode.Pin?
    case _ => true
  }

  function KeyText(key: Key): string {
    match key
    case Digit(c) => [c]
    case DoubleZero => "00"
    case Comma => ","
    case Backspace => ""
  }

  /** The position of the comma, or the length. */
  function CommaAt(s: string): (k: nat)
    ensures k <= |s| && (k < |s| ==> s[k] == ',') && forall i :: 0 <= i < k ==> s[i] != ','
  {
    if s == [] || s[0] == ',' then 0 else CommaAt(s[1..]) + 1
  }

  function ApplyMoneyDigits(value: string, key: Key): string {
    var comma := CommaAt(value);
    if comma < |value| then
      var decimals := |value| - comma - 1;
      if decimals >= MONEY_DECIMALS then value
      else if key.DoubleZero? then value + "00"[..MONEY_DECIMALS - decimals]
      else value + KeyText(key)
    else if value == "" || value == "0" then if key.DoubleZero? then "0" else KeyText(key)
    else if |value + KeyText(key)| > MONEY_MAX_INT_DIGITS then value
    else value + KeyText(key)
  }

  function ApplyKey(current: string, key: Key, mode: Mode, maxLength: nat, pendingReplace: bool): string {
    if key.Backspace? then if current == [] then [] else current[..|current| - 1]
    else if !KeyEnabled(mode, key) then current
    else
      var value := if pendingReplace then "" else current;
      if key.Comma? then if ',' in value then value else (if value == "" then "0" else value) + ","
      else if mode.Money? then ApplyMoneyDigits(value, key)
      else if mode.Integer? && (value == "" || value == "0") then if key.DoubleZero? then "0" else KeyText(key)
      else if |value + KeyText(key)| > maxLength then value
      else value + KeyText(key)
  }

  // ---------------------------------------------------------------- what each key does

  /** A digit is appended while there is room: seven whole digits and two decimals of money, else the length given. */
  lemma DigitIsExact(s: string, c: char, mode: Mode, maxLength: nat)
    ensures var next := ApplyKey(s, Digit(c), mode, maxLength, false);
      next == if mode.Money? && CommaAt(s) < |s| then (if |s| - CommaAt(s) <= 2 then s + [c] else s)
              else if !mode.Pin? && (s == "" || s == "0") then [c]
              else if |s| < (if mode.Money? then 7 else maxLength) then s + [c]
              else s
  {
  }

  /** The double zero fills up the decimals, does not lead, and needs room for both; a PIN pad has none. */
  lemma DoubleZeroIsExact(s: string, mode: Mode, maxLength: nat)
    ensures var next := ApplyKey(s, DoubleZero, mode, maxLength, false);
      next == if mode.Pin? then s
              else if mode.Money? && CommaAt(s) < |s| then
                (if |s| - CommaAt(s) == 1 then s + "00" else if |s| - CommaAt(s) == 2 then s + "0" else s)
              else if s == "" || s == "0" then "0"
              else if |s| + 2 <= (if mode.Money? then 7 else maxLength) then s + "00"
              else s
  {
  }

  /** One comma, for money only, never in front; backspace takes the last character away. */
  lemma CommaAndBackspaceAreExact(s: string, mode: Mode, maxLength: nat, pendingReplace: bool)
    ensures ApplyKey(s, Comma, mode, maxLength, false)
         == if mode != Money || ',' in s then s else if s == "" then "0," else s + ","
    ensures ApplyKey(s, Backspace, mode, maxLength, pendingReplace) == if s == "" then "" else s[..|s| - 1]
  {
  }

  /** The first key over a preset starts anew, if the mode has the key. */
  lemma FirstKeyReplaces(s: string, key: Key, mode: Mode, maxLength: nat)
    requires !key.Backspace?
    ensures ApplyKey(s, key, mode, maxLength, true)
         == if (key.Comma? && mode != Money) || (key.DoubleZero? && mode == Pin) then s
            else ApplyKey("", key, mode, maxLength, false)
  {
  }

  // ---------------------------------------------------------------- what the field can hold

  /** A number without superfluous leading zeros. */
  ghost predicate Whole(s: string, maxDigits: nat) {
    Digits(s) && |s| <= maxDigits && (s != [] && s[0] == '0' ==> |s| == 1)
  }

  /** Nothing, or up to seven whole digits with up to two decimals after a comma. */
  ghost predicate MoneyText(s: string) {
    var k := CommaAt(s);
    Whole(s[..k], MONEY_MAX_INT_DIGITS) && (k < |s| ==> k > 0 && Digits(s[k + 1..]) && |s| - k - 1 <= MONEY_DECIMALS)
  }

  ghost predicate FieldText(mode: Mode, maxLength: nat, s: string) {
    match mode
    case Money => MoneyText(s)
    case Integer => Whole(s, maxLength)
    case Pin => Digits(s) && |s| <= maxLength
  }

  lemma CommaOf(whole: string, rest: string)
    requires Digits(whole) && (rest == [] || rest[0] == ',')
    ensures CommaAt(whole + rest) == |whole|
  {
    var s := whole + rest;
    assert rest != [] ==> s[|whole|] == ',';
    assert forall i :: 0 <= i < |whole| ==> IsDigit(s[i]);
  }

  /** A whole part with a tail reads as such. */
  lemma MoneyOf(whole: string, rest: string)
    requires Whole(whole, MONEY_MAX_INT_DIGITS)
    requires rest == [] || (rest[0] == ',' && whole != [] && Digits(rest[1..]) && |rest| <= MONEY_DECIMALS + 1)
    ensures MoneyText(whole + rest)
  {
    var s := whole + rest;
    CommaOf(whole, rest);
    assert s[..|whole|] == whole;
    assert rest != [] ==> s[|whole| + 1..] == rest[1..];
  }

  /** A field as its whole part and the rest from the comma on. */
  lemma MoneySplits(s: string)
    requires MoneyText(s)
    ensures var k := CommaAt(s); var whole, rest := s[..k], s[k..];
      && s == whole + rest && Whole(whole, MONEY_MAX_INT_DIGITS)
      && (rest == [] || (rest[0] == ',' && whole != [] && Digits(rest[1..]) && |rest| <= MONEY_DECIMALS + 1))
  {
    var k := CommaAt(s);
    assert k < |s| ==> s[k..][1..] == s[k + 1..];
  }

  lemma BackspaceKeeps(s: string)
    requires MoneyText(s) && s != []
    ensures MoneyText(s[..|s| - 1])
  {
    MoneySplits(s);
    var k := CommaAt(s);
    var whole, rest := s[..k], s[k..];
    if rest == [] {
      assert whole == s;
      WholeIsMoney(s[..|s| - 1]);
    } else {
      var shorter := rest[..|rest| - 1];
      assert shorter != [] ==> shorter[1..] == rest[1..][..|rest| - 2];
      MoneyOf(whole, shorter);
      assert whole + shorter == s[..|s| - 1];
    }
  }

  lemma WholeIsMoney(s: string)
    requires Whole(s, MONEY_MAX_INT_DIGITS)
    ensures MoneyText(s)
  {
    MoneyOf(s, "");
    assert s + "" == s;
  }

  lemma CommaKeeps(s: string)
    requires MoneyText(s) && ',' !in s
    ensures MoneyText((if s == "" then "0" else s) + ",")
  {
    MoneySplits(s);
    assert CommaAt(s) == |s| && s[..|s|] == s;
    MoneyOf(if s == "" then "0" else s, ",");
  }

  lemma DecimalsKeep(s: string, more: string)
    requires MoneyText(s) && Digits(more) && CommaAt(s) < |s| && |s| + |more| <= CommaAt(s) + 1 + MONEY_DECIMALS
    ensures MoneyText(s + more)
  {
    MoneySplits(s);
    LongerDecimals(s[..CommaAt(s)], s[CommaAt(s)..], more);
  }

  lemma LongerDecimals(whole: string, rest: string, more: string)
    requires Whole(whole, MONEY_MAX_INT_DIGITS) && whole != [] && rest != [] && rest[0] == ','
    requires Digits(rest[1..]) && Digits(more) && |rest| + |more| <= MONEY_DECIMALS + 1
    ensures MoneyText(whole + rest + more)
  {
    assert (rest + more)[1..] == rest[1..] + more;
    MoneyOf(whole, rest + more);
    assert whole + rest + more == whole + (rest + more);
  }

  lemma DigitsKeep(s: string, key: Key)
    requires MoneyText(s) && (key.DoubleZero? || (key.Digit? && IsDigit(key.c)))
    ensures MoneyText(ApplyMoneyDigits(s, key))
  {
    var next := ApplyMoneyDigits(s, key);
    if CommaAt(s) < |s| {
      if next != s {
        DecimalsKeep(s, if key.DoubleZero? then "00"[..MONEY_DECIMALS - (|s| - CommaAt(s) - 1)] else KeyText(key));
      }
    } else if next != s {
      assert s[..CommaAt(s)] == s;
      WholeIsMoney(next);
    }
  }

  lemma MoneyKeyKeeps(s: string, key: Key, pendingReplace: bool)
    requires MoneyText(s) && (key.Digit? ==> IsDigit(key.c))
    ensures MoneyText(ApplyKey(s, key, Money, 0, pendingReplace))
  {
    MoneyOf("", "");
    assert "" + "" == "";
    var value := if pendingReplace then "" else s;
    match key
    case Backspace =>
      if s != [] {
        BackspaceKeeps(s);
      }
    case Comma =>
      if ',' !in value {
        CommaKeeps(value);
      }
    case DoubleZero => DigitsKeep(value, key);
    case Digit(_) => DigitsKeep(value, key);
  }

  /** Every key keeps the field within its mode's grammar. */
  lemma KeyKeepsField(s: string, key: Key, mode: Mode, maxLength: nat, pendingReplace: bool)
    requires FieldText(mode, maxLength, s) && maxLength >= 1 && (key.Digit? ==> IsDigit(key.c))
    ensures FieldText(mode, maxLength, ApplyKey(s, key, mode, maxLength, pendingReplace))
  {
    if mode.Money? {
      MoneyKeyKeeps(s, key, pendingReplace);
    }
  }

  datatype Press = Press(key: Key, pendingReplace: bool)

  function AfterPresses(start: string, presses: seq<Press>, mode: Mode, maxLength: nat): string {
    if presses == [] then start
    else
      var last := presses[|presses| - 1];
      ApplyKey(AfterPresses(start, presses[..|presses| - 1], mode, maxLength), last.key, mode, maxLength,
               last.pendingReplace)
  }

  function KeyFor(c: char): Key {
    if c == ',' then Comma else Digit(c)
  }

  /** One press per character. */
  function Typed(s: string): (presses: seq<Press>)
    ensures |presses| == |s|
  {
    seq(|s|, i requires 0 <= i < |s| => Press(KeyFor(s[i]), false))
  }

  /** Every text of the money grammar can be typed, character by character: the keys refuse nothing else. */
  lemma {:induction false} EveryMoneyTextIsTyped(s: string, maxLength: nat)
    requires MoneyText(s)
    ensures AfterPresses("", Typed(s), Money, maxLength) == s
  {
    if s != [] {
      var n := |s| - 1;
      BackspaceKeeps(s);
      EveryMoneyTextIsTyped(s[..n], maxLength);
      assert Typed(s)[..n] == Typed(s[..n]);
      LastKeyAppends(s, maxLength);
    }
  }

  lemma LastKeyAppends(s: string, maxLength: nat)
    requires MoneyText(s) && s != []
    ensures ApplyKey(s[..|s| - 1], KeyFor(s[|s| - 1]), Money, maxLength, false) == s
  {
    var n := |s| - 1;
    var k := CommaAt(s);
    var front, c := s[..n], s[n];
    assert s == front + [c];
    if k == n {
      assert ',' !in front && front != [];
    } else if k < n {
      assert CommaAt(front) == k by {
        CommaOf(s[..k], s[k..n]);
        assert s[..k] + s[k..n] == front;
      }
      assert s[k + 1..][n - k - 1] == c && IsDigit(c);
    } else {
      assert s[..k] == s && IsDigit(c);
      assert CommaAt(front) == n by {
        CommaOf(front, "");
        assert front + "" == front;
      }
    }
  }

  // ---------------------------------------------------------------- kurus as text

  /** Two decimals after a comma. */
  function KurusToInput(kurus: nat): string {
    Decimal(kurus / 100) + "," + TwoDecimals(kurus % 100)
  }

  function TwoDecimals(n: nat): (s: string)
    requires n < 100
    ensures Digits(s) && |s| == 2
  {
    [DigitOf(n / 10), DigitOf(n % 10)]
  }

  lemma {:induction false} DecimalIsWhole(n: nat, digits: nat)
    requires digits >= 1 && n < Power10(digits)
    ensures Whole(Decimal(n), digits) && (n > 0 ==> Decimal(n)[0] != '0')
  {
    if n >= 10 {
      assert digits > 1;
      DecimalIsWhole(n / 10, digits - 1);
    }
  }

  /** Any key presses, from an empty field or a preset below 10^9 kurus, leave a field within the grammar. */
  lemma {:induction false} PressesKeepField(start: string, presses: seq<Press>, mode: Mode, maxLength: nat, preset: nat)
    requires start == "" || (mode.Money? && preset < 1_000_000_000 && start == KurusToInput(preset))
    requires maxLength >= 1 && forall i :: 0 <= i < |presses| && presses[i].key.Digit? ==> IsDigit(presses[i].key.c)
    ensures FieldText(mode, maxLength, AfterPresses(start, presses, mode, maxLength))
    ensures !mode.Money? ==> |AfterPresses(start, presses, mode, maxLength)| <= maxLength
  {
    if presses == [] {
      if start != "" {
        assert Power10(7) == 10_000_000 by {
          assert Power10(4) == 10_000;
        }
        DecimalIsWhole(preset / 100, 7);
        var rest := "," + TwoDecimals(preset % 100);
        assert start == Decimal(preset / 100) + rest;
        MoneyOf(Decimal(preset / 100), rest);
      } else {
        MoneyOf("", "");
      }
    } else {
      var n := |presses| - 1;
      PressesKeepField(start, presses[..n], mode, maxLength, preset);
      KeyKeepsField(AfterPresses(start, presses[..n], mode, maxLength), presses[n].key, mode, maxLength,
                    presses[n].pendingReplace);
    }
  }

  // ---------------------------------------------------------------- text as kurus

  function WithoutDots(s: string): string {
    if s == [] then [] else if s[0] == '.' then WithoutDots(s[1..]) else [s[0]] + WithoutDots(s[1..])
  }

  /** The first comma becomes the decimal point. */
  function PointForComma(s: string): string {
    var k := CommaAt(s);
    if k < |s| then s[k := '.'] else s
  }

  function LeadingDigits(s: string): (d: string)
    ensures Digits(d) && |d| <= |s| && d == s[..|d|] && (|d| < |s| ==> !IsDigit(s[|d|]))
  {
    if s == [] || !IsDigit(s[0]) then [] else [s[0]] + LeadingDigits(s[1..])
  }

  /** The longest leading decimal number, times a hundred, rounded half up; 0 when there is none. */
  function NumberTimes100(s: string): nat {
    var whole := LeadingDigits(s);
    var rest := s[|whole|..];
    var decimals := if rest != [] && rest[0] == '.' then LeadingDigits(rest[1..]) else [];
    Value(whole) * 100 + Rounded(Value(decimals) * 100, Power10(|decimals|))
  }

  function ParseKurus(input: string): nat {
    NumberTimes100(PointForComma(WithoutDots(Trim(input))))
  }

  function Rounded(a: nat, b: nat): nat {
    if b == 0 then 0 else (2 * a + b) / (2 * b)
  }

  ghost predicate Plain(s: string) {
    forall i :: 0 <= i < |s| ==> IsDigit(s[i]) || s[i] == ','
  }

  lemma PlainIsTrimmed(s: string)
    requires forall i :: 0 <= i < |s| ==> IsDigit(s[i]) || s[i] == ',' || s[i] == '.'
    ensures Trim(s) == s
  {
  }

  lemma {:induction false} PlainHasNoDots(s: string)
    requires Plain(s)
    ensures WithoutDots(s) == s
  {
    if s != [] {
      PlainHasNoDots(s[1..]);
    }
  }

  lemma {:induction false} LeadingDigitsOf(d: string, rest: string)
    requires Digits(d) && (rest == [] || !IsDigit(rest[0]))
    ensures LeadingDigits(d + rest) == d
  {
    if d == [] {
      assert d + rest == rest;
    } else {
      assert (d + rest)[0] == d[0] && (d + rest)[1..] == d[1..] + rest;
      LeadingDigitsOf(d[1..], rest);
    }
  }

  lemma NumberOf(whole: string, decimals: string)
    requires Digits(whole) && Digits(decimals) && |decimals| == 2
    ensures NumberTimes100(whole + ("." + decimals)) == Value(whole) * 100 + Value(decimals)
  {
    var s, tail := whole + ("." + decimals), "." + decimals;
    LeadingDigitsOf(whole, tail);
    assert s[|whole|..] == tail && tail[0] == '.' && tail[1..] == decimals;
    LeadingDigitsOf(decimals, "");
    assert decimals + "" == decimals;
    assert Power10(2) == 100 by {
      assert Power10(1) == 10;
    }
    RoundedExactly(Value(decimals));
  }

  lemma PointReplacesComma(whole: string, decimals: string)
    requires Digits(whole)
    ensures PointForComma(whole + ("," + decimals)) == whole + ("." + decimals)
  {
    CommaOf(whole, "," + decimals);
    Replaced(whole, decimals);
  }

  lemma Replaced(whole: string, decimals: string)
    ensures (whole + ("," + decimals))[|whole| := '.'] == whole + ("." + decimals)
  {
    var s, t := (whole + ("," + decimals))[|whole| := '.'], whole + ("." + decimals);
    assert |s| == |t|;
    forall i | 0 <= i < |s| ensures s[i] == t[i] {
    }
  }

  /** Text of digits and commas is read as it stands. */
  lemma PlainIsRead(input: string)
    requires Plain(input)
    ensures ParseKurus(input) == NumberTimes100(PointForComma(input))
  {
    PlainIsTrimmed(input);
    PlainHasNoDots(input);
  }

  /** A whole part with two decimals is worth its digits. */
  lemma ParseTwoDecimals(whole: string, decimals: string)
    requires Digits(whole) && Digits(decimals) && |decimals| == 2
    ensures ParseKurus(whole + ("," + decimals)) == Value(whole) * 100 + Value(decimals)
  {
    PlainIsRead(whole + ("," + decimals));
    PointReplacesComma(whole, decimals);
    NumberOf(whole, decimals);
  }

  lemma RoundedExactly(v: nat)
    ensures Rounded(v * 100, 100) == v
  {
  }

  /** A printed amount reads back as itself. */
  lemma PrintedReadsBack(kurus: nat)
    ensures ParseKurus(KurusToInput(kurus)) == kurus
  {
    var whole, decimals := Decimal(kurus / 100), TwoDecimals(kurus % 100);
    assert KurusToInput(kurus) == whole + ("," + decimals);
    DecimalReadsBack(kurus / 100);
    TwoDigits(kurus % 100);
    ParseTwoDecimals(whole, decimals);
  }

  lemma TwoDigits(n: nat)
    requires n < 100
    ensures Value(TwoDecimals(n)) == n
  {
    var s := TwoDecimals(n);
    assert s[..1] == [DigitOf(n / 10)] && s[..1][..0] == [];
    assert Value(s[..1]) == n / 10;
  }

  /** A whole amount, or one with a single decimal, is worth its digits too. */
  lemma ShortTextIsWorth(whole: string, decimal: char)
    requires Digits(whole) && IsDigit(decimal)
    ensures ParseKurus(whole) == Value(whole) * 100
    ensures ParseKurus(whole + ",") == Value(whole) * 100
    ensures ParseKurus(whole + ("," + [decimal])) == Value(whole) * 100 + (decimal as int - '0' as int) * 10
  {
    hide NumberTimes100;
    hide PointForComma;
    WholeIsWorth(whole);
    PlainIsRead(whole + ",");
    PointReplacesComma(whole, "");
    assert "," + "" == "," && "." + "" == ".";
    NumberWithPoint(whole);
    PlainIsRead(whole + ("," + [decimal]));
    PointReplacesComma(whole, [decimal]);
    NumberWithOneDecimal(whole, decimal);
  }

  lemma WholeIsWorth(whole: string)
    requires Digits(whole)
    ensures ParseKurus(whole) == Value(whole) * 100
  {
    PlainIsRead(whole);
    LeadingDigitsOf(whole, "");
    CommaOf(whole, "");
    assert whole + "" == whole;
    assert Value([]) == 0 && Rounded(0, 1) == 0;
  }

  lemma NumberWithPoint(whole: string)
    requires Digits(whole)
    ensures NumberTimes100(whole + ".") == Value(whole) * 100
  {
    LeadingDigitsOf(whole, ".");
    assert (whole + ".")[|whole|..] == "." && "."[1..] == "";
    assert LeadingDigits("") == "" && Value([]) == 0 && Rounded(0, 1) == 0;
  }

  lemma NumberWithOneDecimal(whole: string, decimal: char)
    requires Digits(whole) && IsDigit(decimal)
    ensures NumberTimes100(whole + ("." + [decimal])) == Value(whole) * 100 + (decimal as int - '0' as int) * 10
  {
    var s, tail := whole + ("." + [decimal]), "." + [decimal];
    assert [decimal][..0] == [] && Digits([decimal]) && Value([]) == 0;
    var d := Value([decimal]);
    assert d == decimal as int - '0' as int;
    LeadingDigitsOf(whole, tail);
    assert s[|whole|..] == tail && tail[0] == '.' && tail[1..] == [decimal];
    LeadingDigitsOf([decimal], "");
    assert [decimal] + "" == [decimal] && Power10(1) == 10;
    assert Rounded(d * 100, 10) == d * 10;
  }

  /** Whatever follows the number is not read. */
  lemma JunkIsIgnored(whole: string, junk: string)
    requires Digits(whole) && junk != [] && !IsDigit(junk[0]) && junk[0] != '.'
    ensures NumberTimes100(whole + junk) == Value(whole) * 100
  {
    LeadingDigitsOf(whole, junk);
    assert (whole + junk)[|whole|..] == junk && Value([]) == 0 && Power10(0) == 1;
  }

  /** Decimals beyond the second are rounded, halves up. */
  lemma RoundedIsNearest(a: int, b: int)
    requires a >= 0 && b > 0
    ensures -b <= 2 * (a - Rounded(a, b) * b) < b
  {
    var q := Rounded(a, b);
    assert 2 * a + b == (2 * b) * q + (2 * a + b) % (2 * b);
    assert (2 * b) * q == 2 * (q * b);
  }

  /** A printed amount has whole digits, a comma and two decimals. */
  lemma PrintedForm(kurus: nat)
    ensures var s := KurusToInput(kurus);
      && |s| >= 4 && s[|s| - 3] == ',' && Digits(s[..|s| - 3]) && Digits(s[|s| - 2..])
      && (s[0] == '0' ==> |s| == 4)
  {
    var s, whole := KurusToInput(kurus), Decimal(kurus / 100);
    assert s == whole + ("," + TwoDecimals(kurus % 100));
    assert s[..|s| - 3] == whole && s[|s| - 2..] == TwoDecimals(kurus % 100);
    NoLeadingZero(kurus / 100);
  }

  lemma {:induction false} NoLeadingZero(n: nat)
    ensures Decimal(n)[0] == '0' ==> |Decimal(n)| == 1
    ensures n > 0 ==> Decimal(n)[0] != '0'
  {
    if n >= 10 {
      NoLeadingZero(n / 10);
    }
  }

  // ---------------------------------------------------------------- thousands dots

  function Grouped(whole: string): string {
    if |whole| <= 3 then whole else Grouped(whole[..|whole| - 3]) + "." + whole[|whole| - 3..]
  }

  /** Counted from the right, every fourth character of the grouped number is a dot, and no other. */
  lemma {:induction false} GroupedByThree(whole: string, j: nat)
    requires Digits(whole) && j < |Grouped(whole)|
    ensures Grouped(whole)[|Grouped(whole)| - 1 - j] == '.' <==> j % 4 == 3
    ensures |Grouped(whole)| == |whole| + (|whole| - 1) / 3
  {
    var g := Grouped(whole);
    if |whole| > 3 {
      var front, back := Grouped(whole[..|whole| - 3]), whole[|whole| - 3..];
      assert g == front + ("." + back);
      GroupedByThree(whole[..|whole| - 3], if j >= 4 then j - 4 else 0);
      if j >= 4 {
        assert g[|g| - 1 - j] == front[|front| - 1 - (j - 4)];
      }
    }
  }

  /** Only the whole part is grouped; an empty field shows zero. */
  lemma DisplayIsGrouped(value: string)
    requires MoneyText(value)
    ensures Display("") == "0"
    ensures value != "" ==> Display(value) == Grouped(value[..CommaAt(value)]) + value[CommaAt(value)..]
  {
    var k := CommaAt(value);
    if k < |value| {
      CommaOf(value[k + 1..], "");
      var rest := value[k + 1..];
      assert rest + "" == rest && value[k..] == "," + rest;
      assert Grouped(value[..k]) + "," + rest == Grouped(value[..k]) + ("," + rest);
    } else {
      assert value[..k] == value && value[k..] == "";
    }
  }

  /** The field as displayed; the edited value itself never has dots. */
  function Display(value: string): string {
    if value == "" then "0"
    else
      var k := CommaAt(value);
      if k == |value| then Grouped(value)
      else
        var rest := value[k + 1..];
        Grouped(value[..k]) + "," + rest[..CommaAt(rest)]
  }

  lemma {:induction false} DotsAppend(a: string, b: string)
    ensures WithoutDots(a + b) == WithoutDots(a) + WithoutDots(b)
  {
    if a == [] {
      assert a + b == b;
    } else {
      assert (a + b)[1..] == a[1..] + b;
      DotsAppend(a[1..], b);
    }
  }

  lemma DotBetween(a: string, b: string)
    ensures WithoutDots(a + "." + b) == WithoutDots(a) + WithoutDots(b)
  {
    DotsAppend(a + ".", b);
    DotsAppend(a, ".");
    OneDot();
  }

  lemma {:induction false} GroupedDrops(whole: string)
    requires Digits(whole)
    ensures WithoutDots(Grouped(whole)) == whole
  {
    if |whole| <= 3 {
      PlainHasNoDots(whole);
    } else {
      var front, back := whole[..|whole| - 3], whole[|whole| - 3..];
      GroupedDrops(front);
      DotBetween(Grouped(front), back);
      PlainHasNoDots(back);
      assert front + back == whole;
    }
  }

  lemma OneDot()
    ensures WithoutDots(".") == ""
  {
  }

  lemma {:induction false} GroupedIsPlain(whole: string)
    requires Digits(whole)
    ensures forall i :: 0 <= i < |Grouped(whole)| ==> IsDigit(Grouped(whole)[i]) || Grouped(whole)[i] == '.'
  {
    if |whole| > 3 {
      GroupedIsPlain(whole[..|whole| - 3]);
    }
  }

  lemma DisplayWithDecimals(whole: string, rest: string)
    requires Digits(whole) && Digits(rest)
    ensures Display(whole + ("," + rest)) == Grouped(whole) + ("," + rest)
  {
    var value := whole + ("," + rest);
    CommaOf(whole, "," + rest);
    CommaOf(rest, "");
    assert value[..|whole|] == whole && value[|whole| + 1..] == rest && rest + "" == rest;
  }

  lemma DecimalsDrop(whole: string, rest: string)
    requires Digits(whole) && Digits(rest)
    ensures WithoutDots(Grouped(whole) + ("," + rest)) == whole + ("," + rest)
  {
    GroupedDrops(whole);
    DotsAppend(Grouped(whole), "," + rest);
    PlainHasNoDots("," + rest);
  }

  /** What the cashier reads, with dots, is worth what the field holds. */
  lemma DisplayReadsTheSame(value: string)
    requires MoneyText(value)
    ensures ParseKurus(Display(value)) == ParseKurus(value)
  {
    var k := CommaAt(value);
    var whole := value[..k];
    GroupedIsPlain(whole);
    if value == "" {
      ParseZero();
    } else if k == |value| {
      assert whole == value;
      GroupedDrops(value);
      SameWithoutDots(Grouped(value), value);
    } else {
      var rest := value[k + 1..];
      assert value == whole + ("," + rest);
      DisplayWithDecimals(whole, rest);
      DecimalsDrop(whole, rest);
      SameWithoutDots(Display(value), value);
    }
  }

  lemma SameWithoutDots(shown: string, value: string)
    requires Plain(value) && WithoutDots(shown) == value
    requires forall i :: 0 <= i < |shown| ==> IsDigit(shown[i]) || shown[i] == ',' || shown[i] == '.'
    ensures ParseKurus(shown) == ParseKurus(value)
  {
    PlainIsTrimmed(shown);
    PlainIsTrimmed(value);
    PlainHasNoDots(value);
  }

  lemma ParseZero()
    ensures ParseKurus("0") == 0 && ParseKurus("") == 0
  {
    PlainIsRead("");
    PlainIsRead("0");
    LeadingDigitsOf("0", "");
    assert "0" + "" == "0";
    assert "0"[..0] == "";
  }
}
