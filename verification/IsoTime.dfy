/** UTC timestamps as `isoformat()` strings, whose fraction is absent at whole seconds and six
    digits otherwise, and the order of those strings. */
module IsoTime {
  import opened Numbers

  datatype Utc = Utc(year: int, month: int, day: int, hour: int, minute: int, second: int, micro: int)

  // --- the calendar ---

  predicate Leap(y: int) { y % 4 == 0 && (y % 100 != 0 || y % 400 == 0) }

  function DaysIn(y: int, m: int): int {
    if m == 2 then (if Leap(y) then 29 else 28)
    else if m == 4 || m == 6 || m == 9 || m == 11 then 30 else 31
  }

  predicate Valid(t: Utc) {
    && 1 <= t.year <= 9999 && 1 <= t.month <= 12 && 1 <= t.day <= DaysIn(t.year, t.month)
    && 0 <= t.hour < 24 && 0 <= t.minute < 60 && 0 <= t.second < 60 && 0 <= t.micro < 1000000
  }

  function DaysBeforeYear(y: int): int { 365 * (y - 1) + (y - 1) / 4 - (y - 1) / 100 + (y - 1) / 400 }

  function DaysBeforeMonth(y: int, m: int): int
    requires m >= 1
    decreases m
  {
    if m == 1 then 0 else DaysBeforeMonth(y, m - 1) + DaysIn(y, m - 1)
  }

  function Day(t: Utc): int requires Valid(t) { DaysBeforeYear(t.year) + DaysBeforeMonth(t.year, t.month) + t.day }

  /** Microseconds since the start of the calendar. */
  function Instant(t: Utc): int requires Valid(t) {
    (((Day(t) * 24 + t.hour) * 60 + t.minute) * 60 + t.second) * 1000000 + t.micro
  }

  // --- the string ---

  function Digits(n: nat, width: nat): string {
    if width == 0 then "" else Digits(n / 10, width - 1) + ["0123456789"[n % 10]]
  }

  function Fields(t: Utc): seq<int> { [t.year, t.month, t.day, t.hour, t.minute, t.second] }

  const WIDTHS: seq<nat> := [4, 2, 2, 2, 2, 2]
  const LEADS: seq<string> := ["", "-", "-", "T", ":", ":"]

  function Encode(fields: seq<int>, widths: seq<nat>, leads: seq<string>): string
    requires |fields| == |widths| == |leads| && forall i :: 0 <= i < |fields| ==> fields[i] >= 0
  {
    if fields == [] then ""
    else leads[0] + Digits(fields[0], widths[0]) + Encode(fields[1..], widths[1..], leads[1..])
  }

  function Fraction(micro: nat): string { if micro == 0 then "" else "." + Digits(micro, 6) }

  function Iso(t: Utc): string requires Valid(t) {
    Encode(Fields(t), WIDTHS, LEADS) + (Fraction(t.micro) + "+00:00")
  }

  /** Character-by-character order. */
  predicate LexLess(a: string, b: string) {
    if b == "" then false
    else if a == "" then true
    else a[0] < b[0] || (a[0] == b[0] && LexLess(a[1..], b[1..]))
  }

  // --- strings of equal length decide first ---

  lemma {:induction false} BlockOrder(a: string, b: string, x: string, y: string)
    requires |a| == |b|
    ensures LexLess(a + x, b + y) <==> LexLess(a, b) || (a == b && LexLess(x, y))
  {
    if a == "" {
      assert a + x == x && b + y == y;
    } else {
      BlockOrder(a[1..], b[1..], x, y);
      assert (a + x)[1..] == a[1..] + x && (b + y)[1..] == b[1..] + y;
      assert a == [a[0]] + a[1..] && b == [b[0]] + b[1..];
    }
  }

  lemma {:induction false} LexIrreflexive(a: string)
    ensures !LexLess(a, a)
  {
    if a != "" { LexIrreflexive(a[1..]); }
  }

  lemma {:induction false} DigitsOrder(n: nat, m: nat, width: nat)
    requires n < Pow10(width) && m < Pow10(width)
    ensures |Digits(n, width)| == |Digits(m, width)| == width
    ensures LexLess(Digits(n, width), Digits(m, width)) <==> n < m
    ensures Digits(n, width) == Digits(m, width) <==> n == m
  {
    if width > 0 {
      DigitsOrder(n / 10, m / 10, width - 1);
      var a, b := Digits(n / 10, width - 1), Digits(m / 10, width - 1);
      var x, y := ["0123456789"[n % 10]], ["0123456789"[m % 10]];
      BlockOrder(a, b, x, y);
      LastDigit(n % 10, m % 10);
      assert (a + x)[..width - 1] == a && (b + y)[..width - 1] == b;
      assert (a + x)[width - 1] == x[0] && (b + y)[width - 1] == y[0];
      hide Digits, LexLess;
    }
  }

  lemma {:induction false} LastDigit(i: nat, j: nat)
    requires i < 10 && j < 10
    ensures LexLess(["0123456789"[i]], ["0123456789"[j]]) <==> i < j
    ensures "0123456789"[i] == "0123456789"[j] <==> i == j
  {
  }

  // --- the fixed-width head ---

  predicate SeqLess(v: seq<int>, u: seq<int>) requires |v| == |u| {
    v != [] && (v[0] < u[0] || (v[0] == u[0] && SeqLess(v[1..], u[1..])))
  }

  predicate Fits(v: seq<int>, widths: seq<nat>) {
    |v| == |widths| && forall i :: 0 <= i < |v| ==> 0 <= v[i] < Pow10(widths[i])
  }

  lemma {:induction false} EncodeSplit(v: seq<int>, widths: seq<nat>, leads: seq<string>, x: string)
    requires Fits(v, widths) && |leads| == |widths| && v != []
    ensures Fits(v[1..], widths[1..])
    ensures Encode(v, widths, leads) + x ==
            leads[0] + (Digits(v[0], widths[0]) + (Encode(v[1..], widths[1..], leads[1..]) + x))
  {
    hide Digits;
  }

  lemma {:induction false} SeqLessStep(v: seq<int>, u: seq<int>)
    requires |v| == |u| > 0
    ensures SeqLess(v, u) <==> v[0] < u[0] || (v[0] == u[0] && SeqLess(v[1..], u[1..]))
    ensures v == u <==> v[0] == u[0] && v[1..] == u[1..]
  {
    assert v == [v[0]] + v[1..] && u == [u[0]] + u[1..];
  }

  lemma {:induction false} HeadOrder(
    v: seq<int>, u: seq<int>, widths: seq<nat>, leads: seq<string>, x: string, y: string)
    requires Fits(v, widths) && Fits(u, widths) && |leads| == |widths|
    ensures LexLess(Encode(v, widths, leads) + x, Encode(u, widths, leads) + y) <==>
            SeqLess(v, u) || (v == u && LexLess(x, y))
  {
    if v == [] {
      assert Encode(v, widths, leads) + x == x && Encode(u, widths, leads) + y == y;
    } else {
      hide Encode, Digits, LexLess, SeqLess;
      var p, q := Encode(v[1..], widths[1..], leads[1..]) + x, Encode(u[1..], widths[1..], leads[1..]) + y;
      var a, b := Digits(v[0], widths[0]), Digits(u[0], widths[0]);
      EncodeSplit(v, widths, leads, x);
      EncodeSplit(u, widths, leads, y);
      SeqLessStep(v, u);
      HeadOrder(v[1..], u[1..], widths[1..], leads[1..], x, y);
      DigitsOrder(v[0], u[0], widths[0]);
      LexIrreflexive(leads[0]);
      BlockOrder(leads[0], leads[0], a + p, b + q);
      BlockOrder(a, b, p, q);
    }
  }

  lemma {:induction false} FractionLead(m: nat)
    ensures m == 0 ==> Fraction(m) + "+00:00" == "+00:00"
    ensures m > 0 ==> Fraction(m) + "+00:00" == "." + (Digits(m, 6) + "+00:00")
  {
    hide Digits;
  }

  lemma {:induction false} PlusBeforeDot(x: string)
    ensures LexLess("+00:00", "." + x) && !LexLess("." + x, "+00:00")
  {
    assert ("." + x)[0] == '.' && "+00:00"[0] == '+';
  }

  /** No fraction sorts before any fraction, because '+' comes before '.'. */
  lemma {:induction false} TailOrder(m: nat, n: nat)
    requires m < 1000000 && n < 1000000
    ensures LexLess(Fraction(m) + "+00:00", Fraction(n) + "+00:00") <==> m < n
  {
    assert Pow10(6) == 1000000;
    hide *;
    FractionLead(m);
    FractionLead(n);
    LexIrreflexive("+00:00");
    if m == 0 || n == 0 {
      PlusBeforeDot(Digits(m, 6) + "+00:00");
      PlusBeforeDot(Digits(n, 6) + "+00:00");
    } else {
      DigitsOrder(m, n, 6);
      LexIrreflexive(".");
      BlockOrder(".", ".", Digits(m, 6) + "+00:00", Digits(n, 6) + "+00:00");
      BlockOrder(Digits(m, 6), Digits(n, 6), "+00:00", "+00:00");
    }
  }

  predicate FieldsLess(t: Utc, u: Utc) {
    SeqLess(Fields(t), Fields(u)) || (Fields(t) == Fields(u) && t.micro < u.micro)
  }

  lemma {:induction false} StringOrder(t: Utc, u: Utc)
    requires Valid(t) && Valid(u)
    ensures LexLess(Iso(t), Iso(u)) <==> FieldsLess(t, u)
  {
    assert Pow10(4) == 10000 && Pow10(2) == 100;
    hide Encode, LexLess, Fraction, SeqLess, Pow10;
    assert Fits(Fields(t), WIDTHS) && Fits(Fields(u), WIDTHS);
    HeadOrder(Fields(t), Fields(u), WIDTHS, LEADS, Fraction(t.micro) + "+00:00", Fraction(u.micro) + "+00:00");
    TailOrder(t.micro, u.micro);
  }

  // --- the calendar order ---

  lemma {:induction false} QuotientStep(y: int, k: int)
    requires k >= 2
    ensures y / k - (y - 1) / k == if y % k == 0 then 1 else 0
  {
    var q, r := y / k, y % k;
    assert y == q * k + r;
    if r == 0 {
      DivideBy(y - 1, k, q - 1, k - 1);
    } else {
      DivideBy(y - 1, k, q, r - 1);
    }
  }

  lemma {:induction false} DivideBy(x: int, k: int, q: int, r: int)
    requires k >= 1 && x == q * k + r && 0 <= r < k
    ensures x / k == q
  {
    var d := x / k - q;
    assert d * k == r - x % k;
    MultipleSize(d, k);
  }

  lemma {:induction false} MultipleSize(d: int, k: int)
    requires k >= 1
    ensures d >= 1 ==> d * k >= k
    ensures d <= -1 ==> d * k <= -k
  {
    if d >= 1 { assert (d - 1) * k >= 0; }
    if d <= -1 { assert (-1 - d) * k >= 0; }
  }

  lemma {:induction false} YearStep(y: int)
    ensures DaysBeforeYear(y + 1) == DaysBeforeYear(y) + 365 + (if Leap(y) then 1 else 0)
  {
    QuotientStep(y, 4);
    QuotientStep(y, 100);
    QuotientStep(y, 400);
  }

  lemma {:induction false} MonthsOfYear(y: int)
    ensures DaysBeforeMonth(y, 12) + DaysIn(y, 12) == 365 + (if Leap(y) then 1 else 0)
  {
    assert DaysBeforeMonth(y, 2) == 31;
    assert DaysBeforeMonth(y, 3) == 31 + DaysIn(y, 2);
    assert DaysBeforeMonth(y, 4) == DaysBeforeMonth(y, 3) + 31;
    assert DaysBeforeMonth(y, 5) == DaysBeforeMonth(y, 4) + 30;
    assert DaysBeforeMonth(y, 6) == DaysBeforeMonth(y, 5) + 31;
    assert DaysBeforeMonth(y, 7) == DaysBeforeMonth(y, 6) + 30;
    assert DaysBeforeMonth(y, 8) == DaysBeforeMonth(y, 7) + 31;
    assert DaysBeforeMonth(y, 9) == DaysBeforeMonth(y, 8) + 31;
    assert DaysBeforeMonth(y, 10) == DaysBeforeMonth(y, 9) + 30;
    assert DaysBeforeMonth(y, 11) == DaysBeforeMonth(y, 10) + 31;
  }

  lemma {:induction false} YearLength(y: int)
    ensures DaysBeforeYear(y + 1) == DaysBeforeYear(y) + 365 + (if Leap(y) then 1 else 0)
    ensures DaysBeforeMonth(y, 12) + DaysIn(y, 12) == 365 + (if Leap(y) then 1 else 0)
  {
    hide *;
    YearStep(y);
    MonthsOfYear(y);
  }

  lemma {:induction false} LaterYear(y: int, z: int)
    requires y < z
    ensures DaysBeforeYear(z) >= DaysBeforeYear(y) + 365 + (if Leap(y) then 1 else 0)
    decreases z - y
  {
    hide DaysBeforeYear, Leap;
    YearLength(y);
    if y + 1 < z { LaterYear(y + 1, z); }
  }

  lemma {:induction false} LaterMonth(y: int, m: int, n: int)
    requires 1 <= m < n
    ensures DaysBeforeMonth(y, n) >= DaysBeforeMonth(y, m) + DaysIn(y, m)
    ensures DaysBeforeMonth(y, m) >= 0
    decreases n
  {
    if m + 1 < n { LaterMonth(y, m, n - 1); }
    if m > 1 { LaterMonth(y, m - 1, m); }
  }

  predicate DateLess(t: Utc, u: Utc) {
    t.year < u.year || (t.year == u.year && (t.month < u.month || (t.month == u.month && t.day < u.day)))
  }

  lemma {:induction false} DateOrderOneWay(t: Utc, u: Utc)
    requires Valid(t) && Valid(u) && DateLess(t, u)
    ensures Day(t) < Day(u)
  {
    if t.year < u.year {
      LaterYear(t.year, u.year);
      YearLength(t.year);
      if t.month < 12 { LaterMonth(t.year, t.month, 12); }
      if u.month > 1 { LaterMonth(u.year, 1, u.month); }
    } else if t.month < u.month {
      LaterMonth(t.year, t.month, u.month);
    }
  }

  /** Day numbers order dates as the calendar does. */
  lemma {:induction false} DateOrder(t: Utc, u: Utc)
    requires Valid(t) && Valid(u)
    ensures Day(t) < Day(u) <==> DateLess(t, u)
    ensures Day(t) == Day(u) <==> (t.year == u.year && t.month == u.month && t.day == u.day)
  {
    if DateLess(t, u) { DateOrderOneWay(t, u); } else if DateLess(u, t) { DateOrderOneWay(u, t); }
  }

  lemma {:induction false} RadixOrder(a: int, b: int, a': int, b': int, base: int)
    requires 0 <= b < base && 0 <= b' < base
    ensures a * base + b < a' * base + b' <==> a < a' || (a == a' && b < b')
  {
    if a < a' { AtLeastOneBase(a, a', base); } else if a > a' { AtLeastOneBase(a', a, base); }
  }

  lemma {:induction false} AtLeastOneBase(a: int, a': int, base: int)
    requires a < a' && base > 0
    ensures a' * base >= a * base + base
  {
    var d := a' - a - 1;
    assert d * base >= 0;
    assert a' * base == a * base + base + d * base;
  }

  lemma {:induction false} InstantOrder(t: Utc, u: Utc)
    requires Valid(t) && Valid(u)
    ensures Instant(t) < Instant(u) <==> FieldsLess(t, u)
  {
    hide Day, FieldsLess;
    DateOrder(t, u);
    RadixOrder(Day(t), t.hour, Day(u), u.hour, 24);
    RadixOrder(Day(t) * 24 + t.hour, t.minute, Day(u) * 24 + u.hour, u.minute, 60);
    RadixOrder((Day(t) * 24 + t.hour) * 60 + t.minute, t.second, (Day(u) * 24 + u.hour) * 60 + u.minute, u.second, 60);
    RadixOrder(((Day(t) * 24 + t.hour) * 60 + t.minute) * 60 + t.second, t.micro,
               ((Day(u) * 24 + u.hour) * 60 + u.minute) * 60 + u.second, u.micro, 1000000);
    FieldsSpelledOut(t, u);
  }

  lemma {:induction false} FieldsSpelledOut(t: Utc, u: Utc)
    ensures FieldsLess(t, u) <==>
            DateLess(t, u) ||
            (t.year == u.year && t.month == u.month && t.day == u.day &&
             (t.hour < u.hour || (t.hour == u.hour &&
              (t.minute < u.minute || (t.minute == u.minute &&
               (t.second < u.second || (t.second == u.second && t.micro < u.micro)))))))
  {
    var v, w := Fields(t), Fields(u);
    assert v[1..][1..] == v[2..] && v[2..][1..] == v[3..] && v[3..][1..] == v[4..] && v[4..][1..] == v[5..];
    assert w[1..][1..] == w[2..] && w[2..][1..] == w[3..] && w[3..][1..] == w[4..] && w[4..][1..] == w[5..];
    assert SeqLess(v[5..], w[5..]) <==> t.second < u.second;
    assert SeqLess(v[4..], w[4..]) <==> t.minute < u.minute || (t.minute == u.minute && SeqLess(v[5..], w[5..]));
    assert SeqLess(v[3..], w[3..]) <==> t.hour < u.hour || (t.hour == u.hour && SeqLess(v[4..], w[4..]));
    assert SeqLess(v[2..], w[2..]) <==> t.day < u.day || (t.day == u.day && SeqLess(v[3..], w[3..]));
    assert SeqLess(v[1..], w[1..]) <==> t.month < u.month || (t.month == u.month && SeqLess(v[2..], w[2..]));
    assert Fields(t) == Fields(u) <==>
      t.year == u.year && t.month == u.month && t.day == u.day && t.hour == u.hour && t.minute == u.minute &&
      t.second == u.second;
  }

  /** Comparing the stored strings is comparing the instants, for every pair of valid UTC
      timestamps, with and without a fraction; equal strings are equal instants. */
  lemma {:induction false} IsoOrderIsChronological(t: Utc, u: Utc)
    requires Valid(t) && Valid(u)
    ensures LexLess(Iso(t), Iso(u)) <==> Instant(t) < Instant(u)
    ensures Iso(t) == Iso(u) <==> Instant(t) == Instant(u)
    ensures Iso(t) == Iso(u) <==> t == u
  {
    hide Iso, Instant, LexLess;
    StringOrder(t, u);
    StringOrder(u, t);
    InstantOrder(t, u);
    InstantOrder(u, t);
    FieldsSpelledOut(t, u);
    FieldsSpelledOut(u, t);
    LexIrreflexive(Iso(t));
  }

  // --- what the string says ---

  /** A decimal number read back from its digits. */
  function Number(digits: string): int {
    if digits == "" then 0
    else 10 * Number(digits[..|digits| - 1]) + (digits[|digits| - 1] as int - '0' as int)
  }

  lemma {:induction false} DigitsRead(n: nat, width: nat)
    requires n < Pow10(width)
    ensures |Digits(n, width)| == width && Number(Digits(n, width)) == n
  {
    if width > 0 {
      DigitsRead(n / 10, width - 1);
      var before, last := Digits(n / 10, width - 1), "0123456789"[n % 10];
      assert (before + [last])[..width - 1] == before;
      DigitValue(n % 10);
    }
  }

  lemma {:induction false} DigitValue(d: nat)
    requires d < 10
    ensures "0123456789"[d] as int - '0' as int == d
  {
    if d == 0 {} else if d == 1 {} else if d == 2 {} else if d == 3 {} else if d == 4 {}
    else if d == 5 {} else if d == 6 {} else if d == 7 {} else if d == 8 {} else { assert d == 9; }
  }

  /** The field that stands at `from`, behind its separator, and the rest of the string. */
  lemma {:induction false} FieldRead(s: string, from: nat, lead: string, n: nat, width: nat, rest: string)
    requires n < Pow10(width) && from <= |s| && s[from..] == lead + (Digits(n, width) + rest)
    ensures |s| == from + |lead| + width + |rest|
    ensures s[from..from + |lead|] == lead
    ensures Number(s[from + |lead|..from + |lead| + width]) == n
    ensures s[from + |lead| + width..] == rest
  {
    DigitsRead(n, width);
    hide Digits, Number;
    var d := Digits(n, width);
    assert s[from..from + |lead|] == s[from..][..|lead|] == lead;
    assert s[from + |lead|..from + |lead| + width] == s[from..][|lead|..|lead| + width] == d;
    assert s[from + |lead| + width..] == s[from..][|lead| + width..] == rest;
  }

  lemma {:induction false} NextField(s: string, from: nat, v: seq<int>, widths: seq<nat>, leads: seq<string>, x: string)
    requires Fits(v, widths) && |leads| == |widths| && v != []
    requires from <= |s| && s[from..] == Encode(v, widths, leads) + x
    ensures Fits(v[1..], widths[1..])
    ensures var start := from + |leads[0]|;
            && start + widths[0] <= |s|
            && s[from..start] == leads[0] && Number(s[start..start + widths[0]]) == v[0]
            && s[start + widths[0]..] == Encode(v[1..], widths[1..], leads[1..]) + x
  {
    hide Encode, Digits, Number, Pow10;
    EncodeSplit(v, widths, leads, x);
    FieldRead(s, from, leads[0], v[0], widths[0], Encode(v[1..], widths[1..], leads[1..]) + x);
  }

  lemma {:induction false} DateReads(s: string, y: nat, m: nat, d: nat, clock: seq<int>, tail: string)
    requires y < 10000 && m < 100 && d < 100 && |clock| == 3
    requires Fits([y, m, d] + clock, WIDTHS) && s == Encode([y, m, d] + clock, WIDTHS, LEADS) + tail
    ensures |s| >= 10 && Number(s[0..4]) == y && s[4..5] == "-" && Number(s[5..7]) == m && s[7..8] == "-"
    ensures Number(s[8..10]) == d && Fits(clock, [2, 2, 2])
    ensures s[10..] == Encode(clock, [2, 2, 2], ["T", ":", ":"]) + tail
  {
    hide Encode, Digits, Number, Pow10, Fits;
    var v := [y, m, d] + clock;
    assert s[0..] == s;
    assert v[1..] == [m, d] + clock && ([m, d] + clock)[1..] == [d] + clock && ([d] + clock)[1..] == clock;
    NextField(s, 0, v, [4, 2, 2, 2, 2, 2], ["", "-", "-", "T", ":", ":"], tail);
    NextField(s, 4, [m, d] + clock, [2, 2, 2, 2, 2], ["-", "-", "T", ":", ":"], tail);
    NextField(s, 7, [d] + clock, [2, 2, 2, 2], ["-", "T", ":", ":"], tail);
  }

  lemma {:induction false} ClockReads(s: string, clock: seq<int>, tail: string)
    requires |s| >= 10 && |clock| == 3 && Fits(clock, [2, 2, 2])
    requires s[10..] == Encode(clock, [2, 2, 2], ["T", ":", ":"]) + tail
    ensures |s| >= 19 && s[10..11] == "T" && Number(s[11..13]) == clock[0] && s[13..14] == ":"
    ensures Number(s[14..16]) == clock[1] && s[16..17] == ":" && Number(s[17..19]) == clock[2] && s[19..] == tail
  {
    assert Encode([], [], []) + tail == tail;
    hide Encode, Digits, Number, Pow10, Fits;
    assert clock[1..] == [clock[1], clock[2]] && [clock[1], clock[2]][1..] == [clock[2]];
    NextField(s, 10, clock, [2, 2, 2], ["T", ":", ":"], tail);
    NextField(s, 13, [clock[1], clock[2]], [2, 2], [":", ":"], tail);
    NextField(s, 16, [clock[2]], [2], [":"], tail);
  }

  /** A stored timestamp says what it stands for: year, month, day, hour, minute and second in their
      places, a fraction of six digits exactly when there are microseconds, and the UTC offset. */
  lemma {:induction false} IsoReads(t: Utc)
    requires Valid(t)
    ensures var s := Iso(t);
            && |s| == (if t.micro == 0 then 25 else 32)
            && Number(s[0..4]) == t.year && s[4..5] == "-" && Number(s[5..7]) == t.month && s[7..8] == "-"
            && Number(s[8..10]) == t.day && s[10..11] == "T" && Number(s[11..13]) == t.hour && s[13..14] == ":"
            && Number(s[14..16]) == t.minute && s[16..17] == ":" && Number(s[17..19]) == t.second
            && (t.micro == 0 ==> s[19..] == "+00:00")
            && (t.micro != 0 ==> s[19..20] == "." && Number(s[20..26]) == t.micro && s[26..] == "+00:00")
  {
    assert Pow10(4) == 10000 && Pow10(2) == 100 && Pow10(6) == 1000000;
    var s, tail, clock := Iso(t), Fraction(t.micro) + "+00:00", [t.hour, t.minute, t.second];
    assert Fits(Fields(t), WIDTHS) && Fields(t) == [t.year, t.month, t.day] + clock;
    hide Encode, Digits, Number, Fraction, Pow10, Fits;
    DateReads(s, t.year, t.month, t.day, clock, tail);
    ClockReads(s, clock, tail);
    FractionLead(t.micro);
    if t.micro != 0 { FieldRead(s, 19, ".", t.micro, 6, "+00:00"); }
  }

  /** The calendar is the Gregorian one: its leap days, and the day number of the first of January
      1970. */
  lemma {:induction false} CalendarAnchored(clock: Utc)
    requires 0 <= clock.hour < 24 && 0 <= clock.minute < 60 && 0 <= clock.second < 60 && 0 <= clock.micro < 1000000
    ensures var epoch := clock.(year := 1970, month := 1, day := 1); Valid(epoch) && Day(epoch) == 719163
    ensures Valid(clock.(year := 2000, month := 2, day := 29)) && Valid(clock.(year := 2024, month := 2, day := 29))
    ensures !Valid(clock.(year := 1900, month := 2, day := 29)) && !Valid(clock.(year := 2023, month := 2, day := 29))
    ensures !Valid(clock.(year := 2024, month := 4, day := 31)) && Valid(clock.(year := 2024, month := 8, day := 31))
  {
    assert DaysBeforeMonth(1970, 1) == 0;
  }
}
