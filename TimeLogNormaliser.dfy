/** The `time_logged` normaliser of `TimeLogSerializer`
    (yumljira/apps/projects/serializers.py:109-173).

    The input is the string the serializer's `CharField` hands to
    `validate_time_logged`. It is either a plain count of minutes (`'20'`) or a
    space-separated list of `<decimal><unit>` tokens (`'2h 30m'`). Magnitudes,
    products and sums are Dafny `real`s, computed exactly. `Decimal(value)` is
    exact in Python too, but its default context rounds every product and sum
    to 28 significant digits; the model agrees with the source only while all
    of them fit in 28 digits. */
module TimeLogNormaliser {
  import opened Common

  // ---------------------------------------------------------------------------
  // The modelled input domain
  // ---------------------------------------------------------------------------

  /** Characters that only matter to Python's more exotic numeric literals:
      the `+` sign, `_` digit separators, the `e`/`E` exponent marker and the
      letters without which no `inf`, `Infinity`, `nan` or `sNaN` can be
      spelled. */
  const LiteralMarks: set<char> := {'+', '_', 'e', 'E', 'n', 'N'}

  /** The inputs this model describes: printable ASCII, no surrounding spaces
      (the `CharField` trims them) and no literal marks in a magnitude position,
      i.e. anywhere except the last character of a space-separated token. On
      this domain `int()` accepts exactly `-?[0-9]+` and `Decimal()` accepts
      exactly `-?([0-9]+(.[0-9]*)?|.[0-9]+)`. */
  predicate PlainNumerals(s: string) {
    && (forall i :: 0 <= i < |s| ==> ' ' <= s[i] <= '~')
    && (|s| > 0 ==> s[0] != ' ' && s[|s| - 1] != ' ')
    && (forall i :: 0 <= i < |s| - 1 && s[i + 1] != ' ' ==> s[i] !in LiteralMarks)
  }

  // ---------------------------------------------------------------------------
  // Digits, integers and decimals
  // ---------------------------------------------------------------------------

  predicate IsDigit(c: char) {
    '0' <= c <= '9'
  }

  predicate AllDigits(s: string) {
    forall i :: 0 <= i < |s| ==> IsDigit(s[i])
  }

  function DigitValue(c: char): (r: nat)
    requires IsDigit(c)
  {
    c as int - '0' as int
  }

  function DigitChar(d: nat): (c: char)
    requires d < 10
    ensures IsDigit(c) && DigitValue(c) == d
  {
    ('0' as int + d) as char
  }

  /** The value of a run of decimal digits, most significant first. */
  function DigitsValue(ds: string): (r: nat)
    requires AllDigits(ds)
  {
    if ds == [] then 0 else DigitsValue(ds[..|ds| - 1]) * 10 + DigitValue(ds[|ds| - 1])
  }

  function Pow10(k: nat): (r: nat)
    ensures r > 0
  {
    if k == 0 then 1 else 10 * Pow10(k - 1)
  }

  /** What Python's `int()` accepts on the modelled domain. */
  predicate IsIntegerLiteral(s: string) {
    || (|s| > 0 && AllDigits(s))
    || (|s| > 1 && s[0] == '-' && AllDigits(s[1..]))
  }

  function IntegerValue(s: string): (r: int)
    requires IsIntegerLiteral(s)
  {
    if s[0] == '-' then -(DigitsValue(s[1..]) as int) else DigitsValue(s)
  }

  /** The decimal rendering of a natural number, as `str()` writes it. */
  function ShowNat(n: nat): (r: string)
    ensures |r| > 0 && AllDigits(r)
  {
    if n < 10 then [DigitChar(n)] else ShowNat(n / 10) + [DigitChar(n % 10)]
  }

  /** The decimal rendering of an integer, as `str()` writes it. */
  function ShowInt(n: int): (r: string) {
    if n < 0 then "-" + ShowNat(-n) else ShowNat(n)
  }

  lemma {:induction false} ShowNatValue(n: nat)
    ensures DigitsValue(ShowNat(n)) == n
  {
    if n >= 10 {
      var r := ShowNat(n);
      assert r[..|r| - 1] == ShowNat(n / 10);
      ShowNatValue(n / 10);
    }
  }

  /** `int(str(n)) == n`: rendering an integer and reading it back is the identity. */
  lemma ShowIntRoundTrip(n: int)
    ensures IsIntegerLiteral(ShowInt(n)) && IntegerValue(ShowInt(n)) == n
  {
    ShowNatValue(if n < 0 then -n else n);
    if n < 0 {
      assert ShowInt(n)[1..] == ShowNat(-n);
    }
  }

  /** Index of the first `.` in `b`, or `|b|` when there is none. */
  function DotIndex(b: string): (k: nat)
    ensures k <= |b|
    ensures k < |b| ==> b[k] == '.'
    ensures forall j :: 0 <= j < k ==> b[j] != '.'
  {
    if b == [] then 0 else if b[0] == '.' then 0 else 1 + DotIndex(b[1..])
  }

  /** `[0-9]+(.[0-9]*)?` or `.[0-9]+`: an unsigned decimal numeral. */
  predicate IsUnsignedDecimal(b: string) {
    var k := DotIndex(b);
    && AllDigits(b[..k])
    && if k == |b| then k > 0 else AllDigits(b[k + 1..]) && |b| > 1
  }

  function UnsignedValue(b: string): (v: real)
    requires IsUnsignedDecimal(b)
    ensures v >= 0.0
  {
    var k := DotIndex(b);
    var whole := DigitsValue(b[..k]) as real;
    if k == |b| then whole
    else
      var num, den := DigitsValue(b[k + 1..]) as real, Pow10(|b| - k - 1) as real;
      assert num >= 0.0 && den > 0.0;
      whole + num / den
  }

  /** Python's `Decimal(value)` on the modelled domain: `None` stands for the
      `InvalidOperation` it raises. */
  function ParseDecimal(s: string): (r: Option<real>) {
    if |s| > 0 && s[0] == '-' then
      if IsUnsignedDecimal(s[1..]) then Some(-UnsignedValue(s[1..])) else None
    else if IsUnsignedDecimal(s) then Some(UnsignedValue(s))
    else None
  }

  /** A numeral `int()` accepts is one `Decimal()` accepts, with the same value. */
  lemma IntegerIsDecimal(s: string)
    requires IsIntegerLiteral(s)
    ensures ParseDecimal(s) == Some(IntegerValue(s) as real)
  {
    var b := if s[0] == '-' then s[1..] else s;
    assert DotIndex(b) == |b| by { assert forall j :: 0 <= j < |b| ==> b[j] != '.'; }
    assert b[..|b|] == b;
  }

  // ---------------------------------------------------------------------------
  // `str.split(' ')`
  // ---------------------------------------------------------------------------

  /** Python's `s.split(' ')`: cut at every single space, keeping empty pieces. */
  function Split(s: string): (r: seq<string>)
    ensures |r| > 0
    ensures forall i :: 0 <= i < |r| ==> ' ' !in r[i]
  {
    if s == [] then [""]
    else
      var rest := Split(s[1..]);
      if s[0] == ' ' then [""] + rest else [[s[0]] + rest[0]] + rest[1..]
  }

  /** `' '.join(ts)`. */
  function Join(ts: seq<string>): (r: string)
    requires |ts| > 0
  {
    if |ts| == 1 then ts[0] else ts[0] + " " + Join(ts[1..])
  }

  lemma {:induction false} SplitJoin(s: string)
    ensures Join(Split(s)) == s
  {
    if s != [] {
      var rest := Split(s[1..]);
      SplitJoin(s[1..]);
      if s[0] == ' ' {
        assert Split(s) == [""] + rest;
      } else if |rest| == 1 {
        assert Split(s) == [[s[0]] + rest[0]];
      } else {
        assert Split(s)[1..] == rest[1..];
        assert Join(rest) == rest[0] + " " + Join(rest[1..]);
      }
    }
  }

  /** Splitting a space-free prefix glued to the rest of the string. */
  lemma {:induction false} SplitPrefix(a: string, s: string)
    requires ' ' !in a
    ensures Split(a + s) == [a + Split(s)[0]] + Split(s)[1..]
  {
    if a != [] {
      assert a[0] != ' ' && ' ' !in a[1..];
      assert (a + s)[0] == a[0];
      assert (a + s)[1..] == a[1..] + s;
      SplitPrefix(a[1..], s);
      var rest := Split(a[1..] + s);
      assert Split(a + s) == [[a[0]] + rest[0]] + rest[1..];
      assert rest[0] == a[1..] + Split(s)[0];
      assert rest[1..] == Split(s)[1..];
      assert [a[0]] + (a[1..] + Split(s)[0]) == a + Split(s)[0];
    } else {
      assert a + s == s && a + Split(s)[0] == Split(s)[0];
      assert Split(s) == [Split(s)[0]] + Split(s)[1..];
    }
  }

  /** Joining space-free tokens and splitting them again gives the tokens back. */
  lemma {:induction false} JoinSplit(ts: seq<string>)
    requires |ts| > 0
    requires forall i :: 0 <= i < |ts| ==> ' ' !in ts[i]
    ensures Split(Join(ts)) == ts
  {
    if |ts| == 1 {
      SplitPrefix(ts[0], "");
      assert ts[0] + "" == ts[0];
    } else {
      JoinSplit(ts[1..]);
      var rest := " " + Join(ts[1..]);
      assert Join(ts) == ts[0] + rest;
      SplitPrefix(ts[0], rest);
      assert rest[1..] == Join(ts[1..]);
      assert Split(rest) == [""] + ts[1..];
      assert ts[0] + "" == ts[0];
    }
  }

  /** A token the modelled domain allows: printable, no space, and no
      literal mark before its last character. */
  predicate PlainToken(t: string) {
    && |t| > 0
    && (forall i :: 0 <= i < |t| ==> ' ' < t[i] <= '~')
    && (forall i :: 0 <= i < |t| - 1 ==> t[i] !in LiteralMarks)
  }

  /** Plain tokens joined by single spaces form an input of the modelled
      domain that splits back into those tokens. */
  lemma {:induction false} JoinPlain(ts: seq<string>)
    requires |ts| > 0 && forall i :: 0 <= i < |ts| ==> PlainToken(ts[i])
    ensures PlainNumerals(Join(ts)) && Split(Join(ts)) == ts
  {
    forall i | 0 <= i < |ts| ensures ' ' !in ts[i] {
      PlainSpaceFree(ts[i]);
    }
    JoinSplit(ts);
    if |ts| > 1 {
      var r := Join(ts[1..]);
      assert forall i :: 0 <= i < |ts| - 1 ==> ts[1..][i] == ts[i + 1];
      JoinPlain(ts[1..]);
      assert |r| > 0 by {
        if |ts[1..]| > 1 { assert r == ts[1] + " " + Join(ts[2..]); }
      }
      PlainPrefix(ts[0], r);
    }
  }

  lemma PlainSpaceFree(t: string)
    requires PlainToken(t)
    ensures ' ' !in t
  {
    assert forall j :: 0 <= j < |t| ==> t[j] != ' ';
  }

  /** A plain token, a space and a non-empty input of the domain. */
  lemma PlainPrefix(a: string, r: string)
    requires PlainToken(a) && |r| > 0 && PlainNumerals(r)
    ensures PlainNumerals(a + " " + r)
  {
    var s := a + " " + r;
    forall i | 0 <= i < |s| ensures ' ' <= s[i] <= '~' {
      if i < |a| { assert s[i] == a[i]; } else if i > |a| { assert s[i] == r[i - |a| - 1]; }
    }
    assert s[0] == a[0] && s[|s| - 1] == r[|r| - 1] && s[|a|] == ' ';
    forall i | 0 <= i < |s| - 1 && s[i + 1] != ' ' ensures s[i] !in LiteralMarks {
      if i < |a| - 1 {
        assert s[i] == a[i];
      } else if i > |a| {
        assert s[i] == r[i - |a| - 1] && s[i + 1] == r[i - |a|];
      }
    }
  }

  // ---------------------------------------------------------------------------
  // Tokens
  // ---------------------------------------------------------------------------

  /** One `(option[-1], _get_value(option[:-1]))` pair. */
  datatype Entry = Entry(unit: char, value: real)

  /** What the list comprehension at serializers.py:148 produces: the pairs,
      or the first exception a token raises (`IndexError` for an empty token,
      `InvalidOperation` for a magnitude that is not a numeral). */
  datatype Scan = Scanned(entries: seq<Entry>) | EmptyToken | BadMagnitude

  /** `_get_value`: `max(Decimal(value), 0)`. */
  function Clamp(v: real): (r: real)
    ensures r >= 0.0 && r >= v
    ensures r == v || r == 0.0
  {
    if v < 0.0 then 0.0 else v
  }

  predicate WellFormedToken(t: string) {
    t != [] && ParseDecimal(t[..|t| - 1]).Some?
  }

  /** The pair a well-formed token contributes: its last character is the
      unit, the rest its clamped magnitude. */
  function TokenEntry(t: string): (e: Entry)
    requires WellFormedToken(t)
    ensures e.unit == t[|t| - 1] && e.value >= 0.0
  {
    Entry(t[|t| - 1], Clamp(ParseDecimal(t[..|t| - 1]).value))
  }

  function ScanTokens(ts: seq<string>): (r: Scan) {
    if ts == [] then Scanned([])
    else if ts[0] == "" then EmptyToken
    else
      var t := ts[0];
      match ParseDecimal(t[..|t| - 1])
      case None => BadMagnitude
      case Some(v) =>
        match ScanTokens(ts[1..])
        case Scanned(es) => Scanned([Entry(t[|t| - 1], Clamp(v))] + es)
        case other => other
  }

  /** When every token is well formed, the comprehension yields one pair per
      token, in token order. */
  lemma {:induction false} ScanAllWellFormed(ts: seq<string>)
    requires forall j :: 0 <= j < |ts| ==> WellFormedToken(ts[j])
    ensures ScanTokens(ts).Scanned?
    ensures |ScanTokens(ts).entries| == |ts|
    ensures forall i :: 0 <= i < |ts| ==> ScanTokens(ts).entries[i] == TokenEntry(ts[i])
  {
    if ts != [] {
      ScanAllWellFormed(ts[1..]);
    }
  }

  /** The first ill-formed token decides the exception: `IndexError` when it is
      empty, `InvalidOperation` otherwise, whatever follows it. */
  lemma {:induction false} ScanFirstError(ts: seq<string>, k: nat)
    requires k < |ts| && !WellFormedToken(ts[k])
    requires forall j :: 0 <= j < k ==> WellFormedToken(ts[j])
    ensures ScanTokens(ts) == if ts[k] == "" then EmptyToken else BadMagnitude
  {
    if k > 0 {
      ScanFirstError(ts[1..], k - 1);
    }
  }

  // ---------------------------------------------------------------------------
  // `dict(...)` over the pairs
  // ---------------------------------------------------------------------------

  function Units(d: seq<Entry>): (r: set<char>) {
    set i | 0 <= i < |d| :: d[i].unit
  }

  function UnitsInOrder(d: seq<Entry>): (r: seq<char>) {
    seq(|d|, i requires 0 <= i < |d| => d[i].unit)
  }

  predicate DistinctUnits(d: seq<Entry>) {
    forall i, j :: 0 <= i < j < |d| ==> d[i].unit != d[j].unit
  }

  predicate KnownUnits(d: seq<Entry>) {
    forall i :: 0 <= i < |d| ==> d[i].unit in AvailableUnits
  }

  /** Assigning `dict[e.unit] = e.value`: an existing key keeps its place and
      takes the new value, a new key goes to the end. */
  function Insert(d: seq<Entry>, e: Entry): (r: seq<Entry>)
    ensures |r| > 0
  {
    if d == [] then [e]
    else if d[0].unit == e.unit then [e] + d[1..]
    else [d[0]] + Insert(d[1..], e)
  }

  /** `dict(pairs)`, built by inserting the pairs left to right. */
  function Collect(es: seq<Entry>): (d: seq<Entry>)
    ensures |es| > 0 ==> |d| > 0
  {
    if es == [] then [] else Insert(Collect(es[..|es| - 1]), es[|es| - 1])
  }

  /** The value the dict holds for `u` (0 when absent). */
  function Lookup(d: seq<Entry>, u: char): (r: real) {
    if d == [] then 0.0 else if d[0].unit == u then d[0].value else Lookup(d[1..], u)
  }

  /** Reference: the value of the LAST pair carrying unit `u` (0 when none does). */
  function LastValue(es: seq<Entry>, u: char): (r: real) {
    if es == [] then 0.0
    else if es[|es| - 1].unit == u then es[|es| - 1].value
    else LastValue(es[..|es| - 1], u)
  }

  /** Reference: each unit once, in order of first occurrence. */
  function FirstOccurrences(us: seq<char>): (r: seq<char>) {
    if us == [] then []
    else FirstOccurrences(us[..|us| - 1]) + (if us[|us| - 1] in us[..|us| - 1] then [] else [us[|us| - 1]])
  }

  lemma UnitsCons(d: seq<Entry>)
    requires |d| > 0
    ensures Units(d) == {d[0].unit} + Units(d[1..])
  {
    forall u | u in Units(d) ensures u in {d[0].unit} + Units(d[1..]) {
      var i :| 0 <= i < |d| && d[i].unit == u;
      if i > 0 { assert d[1..][i - 1].unit == u; }
    }
    forall u | u in Units(d[1..]) ensures u in Units(d) {
      var i :| 0 <= i < |d| - 1 && d[1..][i].unit == u;
      assert d[i + 1].unit == u;
    }
  }

  lemma UnitsSnoc(d: seq<Entry>, e: Entry)
    ensures Units(d + [e]) == Units(d) + {e.unit}
  {
    var d' := d + [e];
    forall u | u in Units(d') ensures u in Units(d) + {e.unit} {
      var i :| 0 <= i < |d'| && d'[i].unit == u;
      if i < |d| { assert d[i].unit == u; }
    }
    forall u | u in Units(d) ensures u in Units(d') {
      var i :| 0 <= i < |d| && d[i].unit == u;
      assert d'[i].unit == u;
    }
    assert d'[|d|].unit == e.unit;
  }

  /** A dict has as many keys as distinct keys: `len(set(keys)) == len(keys)`. */
  lemma {:induction false} DistinctUnitsCount(d: seq<Entry>)
    requires DistinctUnits(d)
    ensures |Units(d)| == |d|
  {
    if d != [] {
      UnitsCons(d);
      DistinctUnitsCount(d[1..]);
      assert d[0].unit !in Units(d[1..]);
    }
  }

  lemma {:induction false} InsertSpec(d: seq<Entry>, e: Entry)
    requires DistinctUnits(d)
    ensures DistinctUnits(Insert(d, e))
    ensures Units(Insert(d, e)) == Units(d) + {e.unit}
    ensures UnitsInOrder(Insert(d, e)) == UnitsInOrder(d) + (if e.unit in Units(d) then [] else [e.unit])
    ensures forall u :: Lookup(Insert(d, e), u) == if u == e.unit then e.value else Lookup(d, u)
  {
    InsertUnits(d, e);
    InsertOrder(d, e);
    forall u ensures Lookup(Insert(d, e), u) == if u == e.unit then e.value else Lookup(d, u) {
      InsertLookup(d, e, u);
    }
  }

  lemma {:induction false} InsertUnits(d: seq<Entry>, e: Entry)
    requires DistinctUnits(d)
    ensures DistinctUnits(Insert(d, e))
    ensures Units(Insert(d, e)) == Units(d) + {e.unit}
  {
    if d == [] {
      assert Units([e]) == {e.unit} by { UnitsCons([e]); }
    } else if d[0].unit == e.unit {
      var r := [e] + d[1..];
      UnitsCons(d);
      UnitsCons(r);
      assert r[1..] == d[1..];
    } else {
      var r := [d[0]] + Insert(d[1..], e);
      InsertUnits(d[1..], e);
      UnitsCons(d);
      UnitsCons(r);
      assert r[1..] == Insert(d[1..], e);
      forall i, j | 0 <= i < j < |r| ensures r[i].unit != r[j].unit {
        if i == 0 {
          assert r[j].unit in Units(r[1..]);
        }
      }
    }
  }

  lemma {:induction false} InsertOrder(d: seq<Entry>, e: Entry)
    ensures UnitsInOrder(Insert(d, e)) == UnitsInOrder(d) + (if e.unit in Units(d) then [] else [e.unit])
  {
    if d == [] {
    } else if d[0].unit == e.unit {
      var r := [e] + d[1..];
      assert d[0].unit in Units(d);
      assert r[1..] == d[1..];
      assert UnitsInOrder(r) == UnitsInOrder(d);
    } else {
      var r := [d[0]] + Insert(d[1..], e);
      InsertOrder(d[1..], e);
      UnitsCons(d);
      assert r[1..] == Insert(d[1..], e);
      assert UnitsInOrder(r) == [d[0].unit] + UnitsInOrder(Insert(d[1..], e));
      assert UnitsInOrder(d) == [d[0].unit] + UnitsInOrder(d[1..]);
    }
  }

  lemma {:induction false} InsertLookup(d: seq<Entry>, e: Entry, u: char)
    ensures Lookup(Insert(d, e), u) == if u == e.unit then e.value else Lookup(d, u)
  {
    if d == [] {
    } else if d[0].unit == e.unit {
      assert ([e] + d[1..])[1..] == d[1..];
    } else {
      InsertLookup(d[1..], e, u);
      assert ([d[0]] + Insert(d[1..], e))[1..] == Insert(d[1..], e);
    }
  }

  lemma InOrderMembership(d: seq<Entry>, u: char)
    ensures u in UnitsInOrder(d) <==> u in Units(d)
  {
    if u in Units(d) {
      var i :| 0 <= i < |d| && d[i].unit == u;
      assert UnitsInOrder(d)[i] == u;
    }
  }

  /** The dict built from the pairs: one entry per unit, the units in order of
      first occurrence, each holding the value of that unit's last pair. */
  lemma {:induction false} CollectSpec(es: seq<Entry>)
    ensures DistinctUnits(Collect(es))
    ensures Units(Collect(es)) == Units(es)
    ensures UnitsInOrder(Collect(es)) == FirstOccurrences(UnitsInOrder(es))
    ensures forall u :: Lookup(Collect(es), u) == LastValue(es, u)
  {
    if es != [] {
      var init, e := es[..|es| - 1], es[|es| - 1];
      assert es == init + [e];
      CollectSpec(init);
      InsertSpec(Collect(init), e);
      UnitsSnoc(init, e);
      assert UnitsInOrder(es)[..|es| - 1] == UnitsInOrder(init);
      InOrderMembership(init, e.unit);
    }
  }

  lemma {:induction false} FirstOccurrencesHead(us: seq<char>)
    requires |us| > 0
    ensures |FirstOccurrences(us)| > 0 && FirstOccurrences(us)[0] == us[0]
  {
    if |us| > 1 {
      assert us[..|us| - 1][0] == us[0];
      FirstOccurrencesHead(us[..|us| - 1]);
    }
  }

  lemma {:induction false} LookupDistinct(d: seq<Entry>, i: nat)
    requires DistinctUnits(d) && i < |d|
    ensures Lookup(d, d[i].unit) == d[i].value
  {
    if i > 0 {
      assert d[1..][i - 1] == d[i];
      LookupDistinct(d[1..], i - 1);
    }
  }

  /** `time_values[0]` is the LAST value of the FIRST-mentioned unit, not the
      value of the first token. */
  lemma FirstDictValue(es: seq<Entry>)
    requires |es| > 0
    ensures Collect(es)[0] == Entry(es[0].unit, LastValue(es, es[0].unit))
  {
    var d := Collect(es);
    CollectSpec(es);
    FirstOccurrencesHead(UnitsInOrder(es));
    assert UnitsInOrder(d)[0] == d[0].unit;
    LookupDistinct(d, 0);
  }

  // ---------------------------------------------------------------------------
  // Weights and the sum
  // ---------------------------------------------------------------------------

  /** The units the message at serializers.py:162 names. */
  const AvailableUnits: set<char> := {'m', 'h', 'd', 'w'}

  /** Minutes per day and per week in `OPTION_TO_MINUTE`, whose definition is
      not part of this model (minutes and hours are fixed at 1 and 60). */
  datatype Rates = Rates(day: real, week: real)

  function Factor(u: char, rates: Rates): (r: real)
    requires u in AvailableUnits
  {
    match u
    case 'm' => 1.0
    case 'h' => 60.0
    case 'd' => rates.day
    case 'w' => rates.week
  }

  /** `sum(OPTION_TO_MINUTE[option] * time for option, time in time_dict.items())`. */
  function Total(d: seq<Entry>, rates: Rates): (r: real)
    requires KnownUnits(d)
  {
    if d == [] then 0.0 else Factor(d[0].unit, rates) * d[0].value + Total(d[1..], rates)
  }

  /** Reference: the weighted sum over the four units of each unit's last value. */
  function ReferenceMinutes(es: seq<Entry>, rates: Rates): (r: real) {
    LastValue(es, 'm') + 60.0 * LastValue(es, 'h')
    + rates.day * LastValue(es, 'd') + rates.week * LastValue(es, 'w')
  }

  function LookupSum(d: seq<Entry>, rates: Rates): (r: real) {
    Lookup(d, 'm') + 60.0 * Lookup(d, 'h') + rates.day * Lookup(d, 'd') + rates.week * Lookup(d, 'w')
  }

  lemma LookupAbsent(d: seq<Entry>, u: char)
    requires u !in Units(d)
    ensures Lookup(d, u) == 0.0
  {
    if d != [] {
      UnitsCons(d);
      LookupAbsent(d[1..], u);
    }
  }

  /** Summing a dict entry by entry equals weighing each unit's stored value. */
  lemma {:induction false} TotalIsLookupSum(d: seq<Entry>, rates: Rates)
    requires DistinctUnits(d) && KnownUnits(d)
    ensures Total(d, rates) == LookupSum(d, rates)
  {
    if d != [] {
      TotalIsLookupSum(d[1..], rates);
      UnitsCons(d);
      assert d[0].unit !in Units(d[1..]);
      LookupAbsent(d[1..], d[0].unit);
      LookupSumCons(d, rates);
    }
  }

  /** The first entry of a dict adds its weighted value to the rest's sum
      when its unit does not occur again. */
  lemma LookupSumCons(d: seq<Entry>, rates: Rates)
    requires d != [] && d[0].unit in AvailableUnits && Lookup(d[1..], d[0].unit) == 0.0
    ensures LookupSum(d, rates) == Factor(d[0].unit, rates) * d[0].value + LookupSum(d[1..], rates)
  {
    var u, v, t := d[0].unit, d[0].value, d[1..];
    var m, h, dd, w := Lookup(t, 'm'), Lookup(t, 'h'), Lookup(t, 'd'), Lookup(t, 'w');
    assert LookupSum(t, rates) == m + 60.0 * h + rates.day * dd + rates.week * w;
    match u
    case 'm' =>
      assert LookupSum(d, rates) == v + 60.0 * h + rates.day * dd + rates.week * w;
    case 'h' =>
      assert LookupSum(d, rates) == m + 60.0 * v + rates.day * dd + rates.week * w;
    case 'd' =>
      assert LookupSum(d, rates) == m + 60.0 * h + rates.day * v + rates.week * w;
    case 'w' =>
      assert LookupSum(d, rates) == m + 60.0 * h + rates.day * dd + rates.week * v;
  }

  /** The result of a successful parse: the dict's sum equals the weighted sum
      of each unit's last value, so in exact arithmetic it depends only on
      those last values and not on the order of the tokens. */
  lemma CollectTotal(es: seq<Entry>, rates: Rates)
    requires KnownUnits(es)
    ensures KnownUnits(Collect(es))
    ensures Total(Collect(es), rates) == ReferenceMinutes(es, rates)
  {
    var d := Collect(es);
    CollectSpec(es);
    forall i | 0 <= i < |d| ensures d[i].unit in AvailableUnits {
      assert d[i].unit in Units(es);
    }
    TotalIsLookupSum(d, rates);
  }

  /** Swapping two adjacent pairs with different units changes no unit's last
      value, hence not the sum. */
  lemma {:induction false} LastValueSwap(a: seq<Entry>, x: Entry, y: Entry, b: seq<Entry>, u: char)
    requires x.unit != y.unit
    ensures LastValue(a + [x, y] + b, u) == LastValue(a + [y, x] + b, u)
  {
    if b == [] {
      assert a + [x, y] + b == (a + [x]) + [y];
      assert a + [y, x] + b == (a + [y]) + [x];
      assert (a + [x, y])[..|a| + 1] == a + [x];
      assert (a + [y, x])[..|a| + 1] == a + [y];
      assert (a + [x])[..|a|] == a;
      assert (a + [y])[..|a|] == a;
    } else {
      var b' := b[..|b| - 1];
      assert (a + [x, y] + b)[..|a| + 2 + |b'|] == a + [x, y] + b';
      assert (a + [y, x] + b)[..|a| + 2 + |b'|] == a + [y, x] + b';
      LastValueSwap(a, x, y, b', u);
    }
  }

  // ---------------------------------------------------------------------------
  // The normaliser
  // ---------------------------------------------------------------------------

  /** The integer path returns an `int`, the period path a `Decimal`. */
  datatype Minutes = Count(n: int) | Duration(d: real)

  datatype Reason = NotPositive | WrongValues | RepeatedPeriods | InvalidPeriods

  /** `validate_time_logged`'s outcome: the value it returns, the
      `ValidationError` it raises, or the `IndexError` that escapes it. */
  datatype Normalised = Accepted(minutes: Minutes) | Rejected(reason: Reason) | IndexErrorRaised

  /** The error each reason is raised with. The first-value-is-zero check
      reuses the invalid-periods message (serializers.py:165-166). */
  function Message(reason: Reason): (e: FieldError)
    ensures e.field == "time_logged"
  {
    FieldError("time_logged",
      match reason
      case NotPositive => "You have to log more than 0 minutes"
      case WrongValues => "Wrong values"
      case RepeatedPeriods => "You cannot repeat periods"
      case InvalidPeriods => "You can only use those characters to describe periods: m, h, d, w")
  }

  /** The checks at serializers.py:152-168 on the dict `d`, in source order. */
  function CheckDict(d: seq<Entry>, rates: Rates): (r: Normalised)
    requires |d| > 0
  {
    if |Units(d)| != |d| then Rejected(RepeatedPeriods)
    else if !(Units(d) <= AvailableUnits) then Rejected(InvalidPeriods)
    else if d[0].value == 0.0 then Rejected(InvalidPeriods)
    else
      assert forall i :: 0 <= i < |d| ==> d[i].unit in Units(d);
      Accepted(Duration(Total(d, rates)))
  }

  /** `validate_time_logged` as written. */
  function NormaliseTimeLogged(s: string, rates: Rates): (r: Normalised)
    requires PlainNumerals(s)
  {
    if IsIntegerLiteral(s) then
      var n := IntegerValue(s);
      if n <= 0 then Rejected(NotPositive) else Accepted(Count(n))
    else
      match ScanTokens(Split(s))
      case EmptyToken => IndexErrorRaised
      case BadMagnitude => Rejected(WrongValues)
      case Scanned(es) => CheckDict(Collect(es), rates)
  }

  /** The pairs of a list of well-formed tokens. */
  function TokenEntries(ts: seq<string>): (es: seq<Entry>)
    requires forall j :: 0 <= j < |ts| ==> WellFormedToken(ts[j])
    ensures |es| == |ts|
    ensures forall i :: 0 <= i < |ts| ==> es[i] == TokenEntry(ts[i])
  {
    seq(|ts|, i requires 0 <= i < |ts| => TokenEntry(ts[i]))
  }

  /** Integer path: a count is accepted exactly when it is positive, and is
      then returned unchanged; every other count is refused as "not more than
      0 minutes". */
  lemma IntegerPath(n: int, rates: Rates)
    ensures PlainNumerals(ShowInt(n))
    ensures NormaliseTimeLogged(ShowInt(n), rates)
         == if n > 0 then Accepted(Count(n)) else Rejected(NotPositive)
  {
    ShowIntRoundTrip(n);
    var s := ShowInt(n);
    assert forall i :: 0 <= i < |s| ==> s[i] == '-' || IsDigit(s[i]) by {
      if n < 0 {
        forall i | 0 <= i < |s| ensures s[i] == '-' || IsDigit(s[i]) {
          if i > 0 { assert s[i] == ShowNat(-n)[i - 1]; }
        }
      }
    }
  }

  /** Integer path for every numeral `int()` accepts, not only `str(n)`:
      `'007'` is 7 minutes and `'-0'` is refused. */
  lemma IntegerLiteralPath(s: string, rates: Rates)
    requires PlainNumerals(s) && IsIntegerLiteral(s)
    ensures NormaliseTimeLogged(s, rates)
         == if IntegerValue(s) > 0 then Accepted(Count(IntegerValue(s))) else Rejected(NotPositive)
  {
  }

  /** `int('007') == 7` and `int('-0') == 0`. */
  lemma PaddedCounts(rates: Rates)
    ensures PlainNumerals("007") && NormaliseTimeLogged("007", rates) == Accepted(Count(7))
    ensures PlainNumerals("-0") && NormaliseTimeLogged("-0", rates) == Rejected(NotPositive)
  {
    assert "007"[..2] == "00" && "00"[..1] == "0" && "-0"[1..] == "0";
    assert "0"[..0] == [] && DigitsValue("0") == 0 && DigitsValue("00") == 0;
    assert IsIntegerLiteral("007") && IntegerValue("007") == 7;
    assert IsIntegerLiteral("-0") && IntegerValue("-0") == 0;
  }

  /** The first ill-formed token rejects the whole input: an empty one (two
      spaces in a row) lets `IndexError` escape, any other raises "Wrong values". */
  lemma IllFormedToken(s: string, rates: Rates, k: nat)
    requires PlainNumerals(s) && !IsIntegerLiteral(s)
    requires k < |Split(s)| && !WellFormedToken(Split(s)[k])
    requires forall j :: 0 <= j < k ==> WellFormedToken(Split(s)[j])
    ensures NormaliseTimeLogged(s, rates)
         == if Split(s)[k] == "" then IndexErrorRaised else Rejected(WrongValues)
  {
    ScanFirstError(Split(s), k);
  }

  /** The period checks stated on the list of pairs rather than on the dict:
      every unit must be known, the value kept for the first-mentioned unit
      must be non-zero, and the minutes are the reference sum. */
  function PeriodVerdict(es: seq<Entry>, rates: Rates): (r: Normalised)
    requires |es| > 0
  {
    if !KnownUnits(es) then Rejected(InvalidPeriods)
    else if LastValue(es, es[0].unit) == 0.0 then Rejected(InvalidPeriods)
    else Accepted(Duration(ReferenceMinutes(es, rates)))
  }

  /** Period path, all tokens well formed: any unit outside {m, h, d, w} is
      refused; otherwise the input is refused exactly when the first-mentioned
      unit's LAST value is 0 (negative magnitudes count as 0), and accepted
      with the weighted sum of each unit's last value. A repeated unit is never
      refused as such. */
  lemma PeriodPath(s: string, rates: Rates)
    requires PlainNumerals(s) && !IsIntegerLiteral(s)
    requires forall j :: 0 <= j < |Split(s)| ==> WellFormedToken(Split(s)[j])
    ensures NormaliseTimeLogged(s, rates) == PeriodVerdict(TokenEntries(Split(s)), rates)
  {
    var ts := Split(s);
    var es := TokenEntries(ts);
    ScanAllWellFormed(ts);
    assert ScanTokens(ts) == Scanned(es);
    var d := Collect(es);
    CollectSpec(es);
    DistinctUnitsCount(d);
    FirstDictValue(es);
    if KnownUnits(es) {
      CollectTotal(es, rates);
    } else {
      var i :| 0 <= i < |es| && es[i].unit !in AvailableUnits;
      assert es[i].unit in Units(d);
    }
  }

  /** The check for repeated periods at serializers.py:157 can never fire: the
      dict has already merged the repeats. */
  lemma RepeatCheckNeverFires(s: string, rates: Rates)
    requires PlainNumerals(s)
    ensures NormaliseTimeLogged(s, rates) != Rejected(RepeatedPeriods)
  {
    if !IsIntegerLiteral(s) {
      match ScanTokens(Split(s))
      case Scanned(es) =>
        CollectSpec(es);
        DistinctUnitsCount(Collect(es));
      case EmptyToken =>
      case BadMagnitude =>
    }
  }

  /** With positive day and week weights every accepted value is a positive
      number of minutes. */
  lemma AcceptedIsPositive(s: string, rates: Rates)
    requires PlainNumerals(s)
    requires rates.day > 0.0 && rates.week > 0.0
    requires NormaliseTimeLogged(s, rates).Accepted?
    ensures match NormaliseTimeLogged(s, rates).minutes
      case Count(n) => n > 0
      case Duration(x) => x > 0.0
  {
    if !IsIntegerLiteral(s) {
      var es := ScanTokens(Split(s)).entries;
      ScanNonNegative(Split(s));
      var d := Collect(es);
      assert forall i :: 0 <= i < |d| ==> d[i].unit in Units(d);
      CollectSpec(es);
      forall i | 0 <= i < |d| ensures d[i].value >= 0.0 {
        LookupDistinct(d, i);
        LastValueNonNegative(es, d[i].unit);
      }
      TotalPositive(d, rates);
    }
  }

  lemma {:induction false} ScanNonNegative(ts: seq<string>)
    ensures ScanTokens(ts).Scanned? ==>
      forall i :: 0 <= i < |ScanTokens(ts).entries| ==> ScanTokens(ts).entries[i].value >= 0.0
  {
    if ts != [] && ts[0] != "" {
      ScanNonNegative(ts[1..]);
    }
  }

  lemma {:induction false} LastValueNonNegative(es: seq<Entry>, u: char)
    requires forall i :: 0 <= i < |es| ==> es[i].value >= 0.0
    ensures LastValue(es, u) >= 0.0
  {
    if es != [] {
      LastValueNonNegative(es[..|es| - 1], u);
    }
  }

  lemma {:induction false} TotalPositive(d: seq<Entry>, rates: Rates)
    requires KnownUnits(d)
    requires forall i :: 0 <= i < |d| ==> d[i].value >= 0.0
    requires rates.day > 0.0 && rates.week > 0.0
    ensures Total(d, rates) >= 0.0
    ensures |d| > 0 && d[0].value > 0.0 ==> Total(d, rates) > 0.0
  {
    if |d| > 0 {
      TotalPositive(d[1..], rates);
      assert Factor(d[0].unit, rates) > 0.0;
      assert Factor(d[0].unit, rates) * d[0].value >= 0.0;
    }
  }
  // ---------------------------------------------------------------------------
  // The test cases of yumljira/apps/projects/tests/test_timelog_validation.py
  // ---------------------------------------------------------------------------

  /** The characters of a rendered integer are a sign and digits. */
  lemma ShowIntChars(n: int)
    ensures forall i :: 0 <= i < |ShowInt(n)| ==> ShowInt(n)[i] == '-' || IsDigit(ShowInt(n)[i])
  {
    var s := ShowInt(n);
    if n < 0 {
      forall i | 0 <= i < |s| ensures s[i] == '-' || IsDigit(s[i]) {
        if i > 0 { assert s[i] == ShowNat(-n)[i - 1]; }
      }
    }
  }

  /** A count followed by a one-character unit is one well-formed token. */
  lemma CountToken(n: int, c: char)
    requires ' ' < c <= '~' && !IsDigit(c)
    ensures var t := ShowInt(n) + [c];
      && PlainNumerals(t) && !IsIntegerLiteral(t) && ' ' !in t
      && WellFormedToken(t) && TokenEntry(t) == Entry(c, Clamp(n as real))
  {
    var t := ShowInt(n) + [c];
    ShowIntChars(n);
    ShowIntRoundTrip(n);
    IntegerIsDecimal(ShowInt(n));
    assert t[..|t| - 1] == ShowInt(n);
    assert forall i :: 0 <= i < |t| - 1 ==> t[i] == ShowInt(n)[i];
    assert !IsDigit(t[|t| - 1]);
    if |t| > 1 && t[0] == '-' {
      assert t[1..][|t| - 2] == c;
    }
  }

  /** ... and the whole input when it stands alone. */
  lemma CountInput(t: string, n: int, c: char)
    requires ' ' < c <= '~' && !IsDigit(c)
    requires t == ShowInt(n) + [c]
    ensures PlainNumerals(t) && !IsIntegerLiteral(t) && Split(t) == [t]
    ensures WellFormedToken(t) && TokenEntries([t]) == [Entry(c, Clamp(n as real))]
  {
    CountToken(n, c);
    JoinSplit([t]);
    assert Join([t]) == t;
  }

  /** `'{number}{character}'` reaches the period checks with one pair. */
  lemma CountPeriod(n: int, c: char, rates: Rates)
    requires ' ' < c <= '~' && !IsDigit(c)
    ensures PlainNumerals(ShowInt(n) + [c])
    ensures NormaliseTimeLogged(ShowInt(n) + [c], rates) == PeriodVerdict([Entry(c, Clamp(n as real))], rates)
  {
    var t := ShowInt(n) + [c];
    CountInput(t, n, c);
    PeriodOutcome(t, [t], [Entry(c, Clamp(n as real))], rates);
  }

  lemma LastValueSingle(e: Entry, u: char)
    ensures LastValue([e], u) == if e.unit == u then e.value else 0.0
  {
    assert [e][..0] == [];
  }

  /** The sum over a single pair with a known unit. */
  lemma SingleEntrySum(e: Entry, rates: Rates)
    requires e.unit in AvailableUnits
    ensures LastValue([e], e.unit) == e.value
    ensures ReferenceMinutes([e], rates) == Factor(e.unit, rates) * e.value
  {
    LastValueSingle(e, 'm');
    LastValueSingle(e, 'h');
    LastValueSingle(e, 'd');
    LastValueSingle(e, 'w');
  }

  /** The period checks on a single pair. */
  lemma SinglePairOutcome(u: char, v: real, rates: Rates)
    ensures PeriodVerdict([Entry(u, v)], rates) ==
      if u !in AvailableUnits || v == 0.0 then Rejected(InvalidPeriods)
      else Accepted(Duration(Factor(u, rates) * v))
  {
    var e := Entry(u, v);
    if u in AvailableUnits {
      assert KnownUnits([e]);
      SingleEntrySum(e, rates);
      assert LastValue([e], e.unit) == v;
      assert ReferenceMinutes([e], rates) == Factor(u, rates) * v;
    } else {
      assert [e][0].unit !in AvailableUnits;
    }
  }

  /** `'{number}{character}'`: refused when the character is not one of the
      four units (whatever the number), refused when the number is not
      positive, and otherwise the number times the unit's weight. */
  lemma CountWithUnit(n: int, c: char, rates: Rates)
    requires ' ' < c <= '~' && !IsDigit(c)
    ensures PlainNumerals(ShowInt(n) + [c])
    ensures NormaliseTimeLogged(ShowInt(n) + [c], rates) ==
      if c !in AvailableUnits || n <= 0 then Rejected(InvalidPeriods)
      else Accepted(Duration(Factor(c, rates) * n as real))
  {
    CountPeriod(n, c, rates);
    CountOutcome(NormaliseTimeLogged(ShowInt(n) + [c], rates), n, c, rates);
  }

  /** The period checks on the pair of a unit and a clamped count. */
  lemma CountOutcome(r: Normalised, n: int, c: char, rates: Rates)
    requires r == PeriodVerdict([Entry(c, Clamp(n as real))], rates)
    ensures r == if c !in AvailableUnits || n <= 0 then Rejected(InvalidPeriods)
      else Accepted(Duration(Factor(c, rates) * n as real))
  {
    if c in AvailableUnits && n > 0 {
      assert Entry(c, Clamp(n as real)) == Entry(c, n as real);
      PositiveCount(c, n, rates);
    } else {
      SinglePairOutcome(c, Clamp(n as real), rates);
    }
  }

  lemma PositiveCount(c: char, n: int, rates: Rates)
    requires c in AvailableUnits && n > 0
    ensures PeriodVerdict([Entry(c, n as real)], rates) == Accepted(Duration(Factor(c, rates) * n as real))
  {
    SinglePairOutcome(c, n as real, rates);
  }

  /** A lone character that is neither a digit nor a space is a token with an
      empty magnitude: "Wrong values". */
  lemma LoneCharacter(c: char, rates: Rates)
    requires ' ' < c <= '~' && !IsDigit(c)
    ensures PlainNumerals([c])
    ensures NormaliseTimeLogged([c], rates) == Rejected(WrongValues)
  {
    assert [c][..0] == "";
    JoinSplit([[c]]);
    assert Join([[c]]) == [c];
    IllFormedToken([c], rates, 0);
  }

  /** The period path on a concrete input, once its pieces are known. */
  lemma PeriodOutcome(s: string, ts: seq<string>, es: seq<Entry>, rates: Rates)
    requires PlainNumerals(s) && !IsIntegerLiteral(s)
    requires Split(s) == ts && forall i :: 0 <= i < |ts| ==> WellFormedToken(ts[i])
    requires TokenEntries(ts) == es
    ensures NormaliseTimeLogged(s, rates) == PeriodVerdict(es, rates)
  {
    PeriodPath(s, rates);
  }

  lemma LastValuePair(x: Entry, y: Entry, u: char)
    ensures LastValue([x, y], u) == if y.unit == u then y.value else if x.unit == u then x.value else 0.0
  {
    assert [x, y][..1] == [x];
    LastValueSingle(x, u);
  }

  /** Two pairs with two different known units. */
  lemma PairSum(x: Entry, y: Entry, rates: Rates)
    requires x.unit in AvailableUnits && y.unit in AvailableUnits && x.unit != y.unit
    ensures KnownUnits([x, y])
    ensures LastValue([x, y], x.unit) == x.value
    ensures ReferenceMinutes([x, y], rates) == Factor(x.unit, rates) * x.value + Factor(y.unit, rates) * y.value
  {
    LastValuePair(x, y, 'm');
    LastValuePair(x, y, 'h');
    LastValuePair(x, y, 'd');
    LastValuePair(x, y, 'w');
  }

  /** A token of digits followed by a unit. */
  lemma WholeToken(t: string, n: nat)
    requires |t| > 1 && AllDigits(t[..|t| - 1]) && DigitsValue(t[..|t| - 1]) == n
    ensures WellFormedToken(t) && TokenEntry(t) == Entry(t[|t| - 1], n as real)
  {
    IntegerIsDecimal(t[..|t| - 1]);
  }

  /** Two space-free tokens joined by one space split back into the two. */
  lemma SplitTwo(a: string, b: string)
    requires ' ' !in a && ' ' !in b
    ensures Split(a + " " + b) == [a, b]
  {
    assert Join([a, b]) == a + " " + b;
    JoinSplit([a, b]);
  }

  /** The pieces of '1h 30m' and of '30m 1h'. */
  lemma HourAndHalfTokens(s: string, ts: seq<string>)
    requires s == "1h 30m" && ts == ["1h", "30m"]
    ensures PlainNumerals(s) && !IsIntegerLiteral(s) && Split(s) == ts
    ensures forall i :: 0 <= i < |ts| ==> WellFormedToken(ts[i])
    ensures TokenEntries(ts) == [Entry('h', 1.0), Entry('m', 30.0)]
  {
    HourMinuteTokens();
    SplitTwo("1h", "30m");
    assert "1h" + " " + "30m" == s;
    assert !IsDigit(s[1]);
  }

  lemma HalfAndHourTokens(s: string, ts: seq<string>)
    requires s == "30m 1h" && ts == ["30m", "1h"]
    ensures PlainNumerals(s) && !IsIntegerLiteral(s) && Split(s) == ts
    ensures forall i :: 0 <= i < |ts| ==> WellFormedToken(ts[i])
    ensures TokenEntries(ts) == [Entry('m', 30.0), Entry('h', 1.0)]
  {
    HourMinuteTokens();
    SplitTwo("30m", "1h");
    assert "30m" + " " + "1h" == s;
    assert !IsDigit(s[2]);
  }

  lemma HourMinuteTokens()
    ensures WellFormedToken("1h") && TokenEntry("1h") == Entry('h', 1.0)
    ensures WellFormedToken("30m") && TokenEntry("30m") == Entry('m', 30.0)
  {
    assert "30m"[..2] == "30" && "30"[..1] == "3";
    WholeToken("1h", 1);
    WholeToken("30m", 30);
  }

  /** '1h 30m' and '30m 1h' both give 90 minutes. */
  lemma HourAndHalf(s: string, rates: Rates)
    requires s == "1h 30m" || s == "30m 1h"
    ensures NormaliseTimeLogged(s, rates) == Accepted(Duration(90.0))
  {
    var h, m := Entry('h', 1.0), Entry('m', 30.0);
    if s == "1h 30m" {
      HourAndHalfTokens(s, ["1h", "30m"]);
      PairSum(h, m, rates);
      PeriodOutcome(s, ["1h", "30m"], [h, m], rates);
    } else {
      HalfAndHourTokens(s, ["30m", "1h"]);
      PairSum(m, h, rates);
      PeriodOutcome(s, ["30m", "1h"], [m, h], rates);
    }
  }

  /** The pieces of '0.5h'. */
  lemma HalfHourTokens(s: string)
    requires s == "0.5h"
    ensures PlainNumerals(s) && !IsIntegerLiteral(s) && Split(s) == [s]
    ensures WellFormedToken(s) && TokenEntries([s]) == [Entry('h', 0.5)]
  {
    HalfToken(s);
    JoinSplit([s]);
    assert Join([s]) == s;
    assert !IsDigit(s[1]);
  }

  lemma HalfToken(t: string)
    requires t == "0.5h"
    ensures WellFormedToken(t) && TokenEntry(t) == Entry('h', 0.5)
  {
    assert t[..3] == "0.5";
    HalfMagnitude("0.5");
  }

  lemma HalfMagnitude(m: string)
    requires m == "0.5"
    ensures ParseDecimal(m) == Some(0.5)
  {
    assert DotIndex(m) == 1;
    assert m[..1] == "0" && m[2..] == "5";
    assert DigitsValue("0") == 0 && DigitsValue("5") == 5 && Pow10(1) == 10;
    assert IsUnsignedDecimal(m);
    assert UnsignedValue(m) == 0.5;
  }

  /** '0.5h' gives 30 minutes. */
  lemma HalfHour(s: string, rates: Rates)
    requires s == "0.5h"
    ensures NormaliseTimeLogged(s, rates) == Accepted(Duration(30.0))
  {
    HalfHourTokens(s);
    SingleEntrySum(Entry('h', 0.5), rates);
    PeriodOutcome(s, [s], [Entry('h', 0.5)], rates);
  }

  lemma NegativeToken(t: string)
    requires t == "-30m"
    ensures WellFormedToken(t) && TokenEntry(t) == Entry('m', 0.0)
  {
    assert t[..3] == "-30" && "-30"[1..] == "30" && "30"[..1] == "3";
    IntegerIsDecimal("-30");
  }

  /** The pieces of '1h -30m'. */
  lemma NegativeLaterTokens(s: string, ts: seq<string>)
    requires s == "1h -30m" && ts == ["1h", "-30m"]
    ensures PlainNumerals(s) && !IsIntegerLiteral(s) && Split(s) == ts
    ensures forall i :: 0 <= i < |ts| ==> WellFormedToken(ts[i])
    ensures TokenEntries(ts) == [Entry('h', 1.0), Entry('m', 0.0)]
  {
    WholeToken("1h", 1);
    NegativeToken("-30m");
    assert Join(ts) == s;
    JoinSplit(ts);
    assert !IsDigit(s[1]);
  }

  /** '1h -30m' gives 60 minutes: the negative magnitude counts as 0. */
  lemma NegativeLater(s: string, rates: Rates)
    requires s == "1h -30m"
    ensures NormaliseTimeLogged(s, rates) == Accepted(Duration(60.0))
  {
    var h, m := Entry('h', 1.0), Entry('m', 0.0);
    NegativeLaterTokens(s, ["1h", "-30m"]);
    PairSum(h, m, rates);
    PeriodOutcome(s, ["1h", "-30m"], [h, m], rates);
  }

  /** The pieces of '2h15m'. */
  lemma JoinedPeriodsTokens(s: string)
    requires s == "2h15m"
    ensures PlainNumerals(s) && !IsIntegerLiteral(s) && Split(s) == [s]
    ensures !WellFormedToken(s) && s != ""
  {
    assert s[..4] == "2h15";
    assert DotIndex("2h15") == 4;
    assert !IsDigit("2h15"[1]);
    JoinSplit([s]);
    assert Join([s]) == s;
    assert !IsDigit(s[1]);
  }

  /** '2h15m' raises "Wrong values": periods must be separated by spaces. */
  lemma JoinedPeriods(s: string, rates: Rates)
    requires s == "2h15m"
    ensures NormaliseTimeLogged(s, rates) == Rejected(WrongValues)
  {
    JoinedPeriodsTokens(s);
    IllFormedToken(s, rates, 0);
  }

  /** The value of the numeral `{w}.{f}`. */
  function DecimalValue(w: nat, f: string): (v: real)
    requires AllDigits(f)
    ensures v >= w as real
  {
    var num, den := DigitsValue(f) as real, Pow10(|f|) as real;
    assert num >= 0.0 && den > 0.0;
    w as real + num / den
  }

  /** `Decimal('{w}.{f}')` is the exact value of the numeral. */
  lemma DecimalMagnitude(w: nat, f: string)
    requires AllDigits(f)
    ensures ParseDecimal(ShowNat(w) + "." + f) == Some(DecimalValue(w, f))
  {
    var ds := ShowNat(w);
    var m := ds + "." + f;
    var k := |ds|;
    assert m[k] == '.';
    assert forall j :: 0 <= j < k ==> m[j] == ds[j] && m[j] != '.';
    assert DotIndex(m) == k;
    assert m[..k] == ds && m[k + 1..] == f;
    ShowNatValue(w);
    assert IsUnsignedDecimal(m);
    assert m[0] != '-';
  }

  /** `'{w}.{f}{c}'`, the form `str()` gives a float between 1 and 200
      followed by a character, is one well-formed token on its own. */
  lemma DecimalInput(t: string, w: nat, f: string, c: char)
    requires AllDigits(f) && ' ' < c <= '~' && t == ShowNat(w) + "." + f + [c]
    ensures PlainNumerals(t) && !IsIntegerLiteral(t) && Split(t) == [t]
    ensures WellFormedToken(t) && TokenEntries([t]) == [Entry(c, DecimalValue(w, f))]
  {
    DecimalToken(t, w, f, c);
    JoinPlain([t]);
    assert Join([t]) == t;
  }

  lemma DecimalToken(t: string, w: nat, f: string, c: char)
    requires AllDigits(f) && ' ' < c <= '~' && t == ShowNat(w) + "." + f + [c]
    ensures PlainToken(t) && !IsIntegerLiteral(t)
    ensures WellFormedToken(t) && TokenEntry(t) == Entry(c, DecimalValue(w, f))
  {
    var ds := ShowNat(w);
    var m := ds + "." + f;
    DecimalMagnitude(w, f);
    assert t[..|t| - 1] == m;
    assert forall i :: 0 <= i < |m| ==> IsDigit(m[i]) || m[i] == '.' by {
      forall i | 0 <= i < |m| ensures IsDigit(m[i]) || m[i] == '.' {
        if i < |ds| { assert m[i] == ds[i]; } else if i > |ds| { assert m[i] == f[i - |ds| - 1]; }
      }
    }
    forall i | 0 <= i < |t| ensures ' ' < t[i] <= '~' && (i < |t| - 1 ==> t[i] !in LiteralMarks) {
      if i < |t| - 1 { assert t[i] == m[i]; }
    }
    assert t[|ds|] == '.' && t[0] == ds[0];
  }

  /** `f'{number}{character}'` for a float number: accepted with the number
      times the unit's weight when the character is one of the four units
      (test_time_logged_correct_w_float). */
  lemma DecimalWithUnit(w: nat, f: string, c: char, v: real, rates: Rates)
    requires AllDigits(f) && c in AvailableUnits && w > 0 && v == DecimalValue(w, f)
    ensures PlainNumerals(ShowNat(w) + "." + f + [c])
    ensures NormaliseTimeLogged(ShowNat(w) + "." + f + [c], rates) == Accepted(Duration(Factor(c, rates) * v))
  {
    var t := ShowNat(w) + "." + f + [c];
    DecimalInput(t, w, f, c);
    DecimalOutcome(t, c, v, rates);
  }

  lemma DecimalOutcome(t: string, c: char, v: real, rates: Rates)
    requires c in AvailableUnits && v > 0.0
    requires PlainNumerals(t) && !IsIntegerLiteral(t) && Split(t) == [t]
    requires WellFormedToken(t) && TokenEntries([t]) == [Entry(c, v)]
    ensures NormaliseTimeLogged(t, rates) == Accepted(Duration(Factor(c, rates) * v))
  {
    PeriodOutcome(t, [t], [Entry(c, v)], rates);
    PositivePair(NormaliseTimeLogged(t, rates), c, v, rates);
  }

  /** The period checks accept one pair with a known unit and a positive value. */
  lemma PositivePair(r: Normalised, c: char, v: real, rates: Rates)
    requires c in AvailableUnits && v > 0.0 && r == PeriodVerdict([Entry(c, v)], rates)
    ensures r == Accepted(Duration(Factor(c, rates) * v))
  {
    SinglePairOutcome(c, v, rates);
  }

  /** Three tokens joined by single spaces. */
  lemma JoinThree(x: string, y: string, z: string)
    ensures Join([x, y, z]) == x + " " + (y + " " + z)
  {
    assert [x, y, z][1..] == [y, z] && [y, z][1..] == [z];
    assert Join([y, z]) == y + " " + Join([z]);
  }

  /** The tokens of '15m 2h 1c', each on its own. */
  lemma MinutesPiece()
    ensures PlainToken("15m") && WellFormedToken("15m") && TokenEntry("15m") == Entry('m', 15.0)
  {
    assert "15m"[..2] == "15" && "15"[..1] == "1";
    WholeToken("15m", 15);
  }

  lemma HoursPiece()
    ensures PlainToken("2h") && WellFormedToken("2h") && TokenEntry("2h") == Entry('h', 2.0)
  {
    WholeToken("2h", 2);
  }

  lemma WrongPiece(c: char)
    requires ' ' < c <= '~' && !IsDigit(c)
    ensures PlainToken("1" + [c]) && WellFormedToken("1" + [c]) && TokenEntry("1" + [c]) == Entry(c, 1.0)
  {
    assert ("1" + [c])[..1] == "1";
    WholeToken("1" + [c], 1);
  }

  /** '15m 2h 1c' splits into its three tokens. */
  lemma OneWrongOptionTokens(s: string, ts: seq<string>, c: char)
    requires ' ' < c <= '~' && !IsDigit(c)
    requires s == "15m 2h 1" + [c] && ts == ["15m", "2h", "1" + [c]]
    ensures PlainNumerals(s) && !IsIntegerLiteral(s) && Split(s) == ts
    ensures forall i :: 0 <= i < |ts| ==> WellFormedToken(ts[i])
    ensures TokenEntries(ts) == [Entry('m', 15.0), Entry('h', 2.0), Entry(c, 1.0)]
  {
    MinutesPiece();
    HoursPiece();
    WrongPiece(c);
    JoinThree("15m", "2h", "1" + [c]);
    assert Join(ts) == s;
    JoinPlain(ts);
    assert s[2] == 'm';
  }

  lemma OneWrongOption(s: string, c: char, rates: Rates)
    requires ' ' < c <= '~' && !IsDigit(c) && c !in AvailableUnits
    requires s == "15m 2h 1" + [c]
    ensures PlainNumerals(s)
    ensures NormaliseTimeLogged(s, rates) == Rejected(InvalidPeriods)
  {
    var es := [Entry('m', 15.0), Entry('h', 2.0), Entry(c, 1.0)];
    OneWrongOptionTokens(s, ["15m", "2h", "1" + [c]], c);
    PeriodOutcome(s, ["15m", "2h", "1" + [c]], es, rates);
    assert es[2].unit !in AvailableUnits;
  }

  // ---------------------------------------------------------------------------
  // The repeat check as the docstring describes it
  // ---------------------------------------------------------------------------

  /** `validate_time_logged` with the repeat check made on the tokens' units
      before the dict merges them, as the docstring (serializers.py:124-127)
      and the comment at serializers.py:156 intend. */
  function NormaliseTimeLoggedChecked(s: string, rates: Rates): (r: Normalised)
    requires PlainNumerals(s)
  {
    if IsIntegerLiteral(s) then
      var n := IntegerValue(s);
      if n <= 0 then Rejected(NotPositive) else Accepted(Count(n))
    else
      match ScanTokens(Split(s))
      case EmptyToken => IndexErrorRaised
      case BadMagnitude => Rejected(WrongValues)
      case Scanned(es) =>
        if |Units(es)| != |es| then Rejected(RepeatedPeriods)
        else CheckDict(Collect(es), rates)
  }

  /** A list has fewer distinct units than entries exactly when a unit repeats. */
  lemma {:induction false} UnitsCountBound(d: seq<Entry>)
    ensures |Units(d)| <= |d|
    ensures |Units(d)| == |d| ==> DistinctUnits(d)
  {
    if d != [] {
      UnitsCons(d);
      UnitsCountBound(d[1..]);
      if d[0].unit in Units(d[1..]) {
        assert Units(d) == Units(d[1..]);
      } else if |Units(d)| == |d| {
        forall i, j | 0 <= i < j < |d| ensures d[i].unit != d[j].unit {
          if i == 0 {
            assert d[j].unit == d[1..][j - 1].unit;
          } else {
            assert d[1..][i - 1].unit != d[1..][j - 1].unit;
          }
        }
      }
    }
  }

  lemma InsertFresh(d: seq<Entry>, e: Entry)
    requires e.unit !in Units(d)
    ensures Insert(d, e) == d + [e]
  {
    if d != [] {
      UnitsCons(d);
      InsertFresh(d[1..], e);
      assert d == [d[0]] + d[1..];
    }
  }

  /** Pairs with distinct units build a dict holding exactly those pairs, in order. */
  lemma {:induction false} CollectDistinct(es: seq<Entry>)
    requires DistinctUnits(es)
    ensures Collect(es) == es
  {
    if es != [] {
      var init, e := es[..|es| - 1], es[|es| - 1];
      assert es == init + [e];
      CollectDistinct(init);
      assert e.unit !in Units(init) by {
        forall i | 0 <= i < |init| ensures init[i].unit != e.unit {
          assert init[i] == es[i];
        }
      }
      InsertFresh(init, e);
    }
  }

  /** The corrected verdict on the list of pairs: a repeated unit is
      refused before the period checks. */
  function CheckedVerdict(es: seq<Entry>, rates: Rates): (r: Normalised)
    requires |es| > 0
  {
    if !DistinctUnits(es) then Rejected(RepeatedPeriods) else PeriodVerdict(es, rates)
  }

  /** With distinct units, a unit's last value is the value of its only
      pair; so the corrected normaliser's zero check is on the first token. */
  lemma {:induction false} DistinctLastValue(es: seq<Entry>, i: nat)
    requires DistinctUnits(es) && i < |es|
    ensures LastValue(es, es[i].unit) == es[i].value
  {
    if i < |es| - 1 {
      var init := es[..|es| - 1];
      assert init[i] == es[i];
      DistinctLastValue(init, i);
    }
  }

  /** With every token well formed, the corrected normaliser refuses a
      repeated unit, and otherwise reaches the same period checks as the
      code as written. */
  lemma CheckedPeriodPath(s: string, rates: Rates)
    requires PlainNumerals(s) && !IsIntegerLiteral(s)
    requires forall j :: 0 <= j < |Split(s)| ==> WellFormedToken(Split(s)[j])
    ensures NormaliseTimeLoggedChecked(s, rates) == CheckedVerdict(TokenEntries(Split(s)), rates)
  {
    var ts := Split(s);
    var es := TokenEntries(ts);
    ScanAllWellFormed(ts);
    assert ScanTokens(ts) == Scanned(es);
    UnitsCountBound(es);
    if DistinctUnits(es) {
      DistinctUnitsCount(es);
      PeriodPath(s, rates);
    }
  }

  /** The corrected normaliser differs from the code as written only by
      refusing repeated units: on every input it does not refuse for that
      reason, the two agree. */
  lemma CheckedAgrees(s: string, rates: Rates)
    requires PlainNumerals(s)
    ensures NormaliseTimeLoggedChecked(s, rates) != Rejected(RepeatedPeriods)
        ==> NormaliseTimeLoggedChecked(s, rates) == NormaliseTimeLogged(s, rates)
  {
    if !IsIntegerLiteral(s) {
      match ScanTokens(Split(s))
      case Scanned(es) =>
        if |Units(es)| == |es| {
          UnitsCountBound(es);
          CollectDistinct(es);
        }
      case EmptyToken =>
      case BadMagnitude =>
    }
  }

  /** The pieces of '1h 2h'. */
  lemma RepeatedHoursTokens(s: string, ts: seq<string>)
    requires s == "1h 2h" && ts == ["1h", "2h"]
    ensures PlainNumerals(s) && !IsIntegerLiteral(s) && Split(s) == ts
    ensures forall i :: 0 <= i < |ts| ==> WellFormedToken(ts[i])
    ensures TokenEntries(ts) == [Entry('h', 1.0), Entry('h', 2.0)]
  {
    WholeToken("1h", 1);
    WholeToken("2h", 2);
    assert Join(ts) == s;
    JoinSplit(ts);
    assert !IsDigit(s[1]);
  }

  /** '1h 2h': as written it is accepted as 120 minutes (the first hour is
      silently dropped); the corrected normaliser refuses it. */
  lemma RepeatedHours(s: string, rates: Rates)
    requires s == "1h 2h"
    ensures NormaliseTimeLogged(s, rates) == Accepted(Duration(120.0))
    ensures NormaliseTimeLoggedChecked(s, rates) == Rejected(RepeatedPeriods)
  {
    var x, y := Entry('h', 1.0), Entry('h', 2.0);
    RepeatedHoursTokens(s, ["1h", "2h"]);
    LastValuePair(x, y, 'm');
    LastValuePair(x, y, 'h');
    LastValuePair(x, y, 'd');
    LastValuePair(x, y, 'w');
    PeriodOutcome(s, ["1h", "2h"], [x, y], rates);
    CheckedPeriodPath(s, rates);
  }
}
