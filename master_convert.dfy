/** The master-data converter convert_customers_v2.py: customer rows read
    from a CSV file are normalised to four fields, tank rows pass through
    unchanged, and the run ends with a tank count per customer. A CSV row
    is what `csv.DictReader` yields: a map from header to cell, where a
    cell missing at the end of a short line is Python's `None`. Reading
    the files, writing JSON and printing are left out; their failures are
    inputs of `RunConversion`. */
module MasterConvert {
  import opened Common

  type CsvRow = map<string, Option<string>>

  // ---------------------------------------------------------------------
  // Python's int() on text

  /** The whitespace `int()` strips, as far as cp932 text can carry it:
      the space, tab to carriage return, and the ideographic space U+3000.
      The ASCII separators 0x1C-0x1F are not among them: `int()` refuses
      them, though `str.strip()` would drop them. */
  predicate IsSpace(c: char) {
    c == ' ' || '\t' <= c <= '\r' || c as int == 0x3000
  }

  /** The decimal digits `int()` reads, as far as cp932 text can carry
      them: ASCII and full-width. */
  predicate IsDigit(c: char) {
    '0' <= c <= '9' || 0xFF10 <= c as int <= 0xFF19
  }

  function DigitValue(c: char): nat
    requires IsDigit(c)
  {
    if '0' <= c <= '9' then c as int - '0' as int else c as int - 0xFF10
  }

  /** The default of `sys.set_int_max_str_digits`: `int()` refuses decimal
      text with more digits than this. */
  const MaxStrDigits := 4300

  /** Number of digits in a numeral, underscores not counted. */
  function DigitCount(s: string): nat {
    if s == [] then 0 else DigitCount(s[..|s| - 1]) + (if IsDigit(s[|s| - 1]) then 1 else 0)
  }

  /** `s` without its leading whitespace. */
  function DropLeadingSpaces(s: string): (r: string)
    ensures r == [] || !IsSpace(r[0])
  {
    if s != [] && IsSpace(s[0]) then DropLeadingSpaces(s[1..]) else s
  }

  /** `s` without its trailing whitespace. */
  function DropTrailingSpaces(s: string): (r: string)
    ensures r == [] || !IsSpace(r[|r| - 1])
  {
    if s != [] && IsSpace(s[|s| - 1]) then DropTrailingSpaces(s[..|s| - 1]) else s
  }

  /** What `DropLeadingSpaces` removes is a run of whitespace at the front. */
  lemma {:induction false} LeadingSpacesDropped(s: string)
    ensures var r := DropLeadingSpaces(s);
            |r| <= |s| && r == s[|s| - |r|..] && forall i :: 0 <= i < |s| - |r| ==> IsSpace(s[i])
  {
    if s != [] && IsSpace(s[0]) {
      LeadingSpacesDropped(s[1..]);
    }
  }

  /** What `DropTrailingSpaces` removes is a run of whitespace at the end. */
  lemma {:induction false} TrailingSpacesDropped(s: string)
    ensures var r := DropTrailingSpaces(s);
            |r| <= |s| && r == s[..|r|] && forall i :: |r| <= i < |s| ==> IsSpace(s[i])
  {
    if s != [] && IsSpace(s[|s| - 1]) {
      TrailingSpacesDropped(s[..|s| - 1]);
    }
  }

  /** `str.strip()` as `int()` applies it. */
  function Strip(s: string): string {
    DropTrailingSpaces(DropLeadingSpaces(s))
  }

  /** Decimal digits, with single underscores allowed between digits. */
  predicate Numeral(s: string) {
    && s != []
    && IsDigit(s[0]) && IsDigit(s[|s| - 1])
    && (forall i :: 0 <= i < |s| ==> IsDigit(s[i]) || s[i] == '_')
    && (forall i :: 0 <= i < |s| - 1 ==> s[i] == '_' ==> s[i + 1] != '_')
  }

  function NumeralValue(s: string): nat {
    if s == [] then 0
    else if IsDigit(s[|s| - 1]) then NumeralValue(s[..|s| - 1]) * 10 + DigitValue(s[|s| - 1])
    else NumeralValue(s[..|s| - 1])
  }

  /** `int(s)` for a string: `None` where Python raises `ValueError`. */
  function ParseInt(s: string): Option<int> {
    ParseStripped(Strip(s))
  }

  /** `int()` on text already stripped: an optional sign, then a numeral
      of at most `MaxStrDigits` digits. */
  function ParseStripped(t: string): Option<int> {
    var signed := t != [] && (t[0] == '+' || t[0] == '-');
    var digits := if signed then t[1..] else t;
    if !Numeral(digits) || DigitCount(digits) > MaxStrDigits then None
    else
      var v: int := NumeralValue(digits);
      Some(if signed && t[0] == '-' then -v else v)
  }

  /** The digits of `str(n)`, without its sign. */
  function Magnitude(n: int): string {
    Digits(if n < 0 then -n else n)
  }

  lemma {:induction false} DigitCountAll(s: string)
    requires forall i :: 0 <= i < |s| ==> IsDigit(s[i])
    ensures DigitCount(s) == |s|
  {
    if s != [] {
      DigitCountAll(s[..|s| - 1]);
    }
  }

  /** Text with more than `MaxStrDigits` digits is refused, however it is
      signed or padded. */
  lemma TooManyDigitsRefused(s: string)
    requires var t := Strip(s);
             var d := if t != [] && (t[0] == '+' || t[0] == '-') then t[1..] else t;
             Numeral(d) && DigitCount(d) > MaxStrDigits
    ensures ParseInt(s) == None
  {
  }

  /** Stripping keeps every character that is not whitespace. */
  lemma StripKeeps(s: string, k: nat)
    requires k < |s| && !IsSpace(s[k])
    ensures s[k] in Strip(s)
  {
    var l := DropLeadingSpaces(s);
    LeadingSpacesDropped(s);
    TrailingSpacesDropped(l);
    var off := |s| - |l|;
    assert l[k - off] == s[k];
    assert Strip(s)[k - off] == s[k];
  }

  /** Stripped text holding a character that is neither sign, digit nor
      underscore is refused. */
  lemma ForeignRefused(t: string, c: char)
    requires c in t && !IsDigit(c) && c != '_' && c != '+' && c != '-'
    ensures ParseStripped(t) == None
  {
    var j :| 0 <= j < |t| && t[j] == c;
    if t[0] == '+' || t[0] == '-' {
      assert t[1..][j - 1] == c;
    }
  }

  /** Text holding one of the ASCII separators 0x1C-0x1F anywhere is
      refused: `int()` does not strip them, and they are neither sign,
      digit nor underscore. */
  lemma SeparatorRefused(s: string, k: nat)
    requires k < |s| && 0x1c <= s[k] as int <= 0x1f
    ensures ParseInt(s) == None
  {
    StripKeeps(s, k);
    ForeignRefused(Strip(s), s[k]);
  }

  /** Decimal digits of `n`, most significant first. */
  function Digits(n: nat): (r: string)
    ensures r != [] && forall i :: 0 <= i < |r| ==> IsDigit(r[i])
  {
    var last := ('0' as int + n % 10) as char;
    if n < 10 then [last] else Digits(n / 10) + [last]
  }

  /** `str(n)`. */
  function FormatInt(n: int): string {
    if n < 0 then "-" + Digits(-n) else Digits(n)
  }

  lemma {:induction false} DigitsValue(n: nat)
    ensures NumeralValue(Digits(n)) == n
  {
    var d := Digits(n);
    if n >= 10 {
      DigitsValue(n / 10);
      assert d[..|d| - 1] == Digits(n / 10);
    }
  }

  /** `str(n)` is not empty and neither starts nor ends with whitespace. */
  lemma FormatShape(n: int)
    ensures FormatInt(n) != [] && !IsSpace(FormatInt(n)[0]) && !IsSpace(FormatInt(n)[|FormatInt(n)| - 1])
  {
  }

  /** The digits `str` writes form a numeral, all of whose characters
      count as digits, and whose value is the number written. */
  lemma DigitsNumeral(m: nat)
    ensures Numeral(Digits(m)) && DigitCount(Digits(m)) == |Digits(m)|
    ensures NumeralValue(Digits(m)) == m
  {
    DigitsValue(m);
    DigitCountAll(Digits(m));
  }

  /** A numeral that starts with a digit, behind an optional minus sign,
      reads as its value. */
  lemma ParseSignedNumeral(ds: string, neg: bool)
    requires Numeral(ds) && DigitCount(ds) <= MaxStrDigits
    ensures ParseStripped((if neg then "-" else "") + ds)
            == Some(if neg then 0 - NumeralValue(ds) as int else NumeralValue(ds) as int)
  {
    var t := (if neg then "-" else "") + ds;
    if neg {
      assert t[0] == '-' && t[1..] == ds;
    } else {
      assert t == ds && IsDigit(t[0]);
    }
  }

  /** The sign and digits of `str(n)` read back as `n`. */
  lemma FormatParses(n: int)
    requires |Magnitude(n)| <= MaxStrDigits
    ensures ParseStripped(FormatInt(n)) == Some(n)
  {
    var m: nat := if n < 0 then -n else n;
    DigitsNumeral(m);
    ParseSignedNumeral(Digits(m), n < 0);
    assert FormatInt(n) == (if n < 0 then "-" else "") + Digits(m);
  }

  /** Any integer written out by `str` is read back by `int`. (`str`
      itself refuses integers of more than `MaxStrDigits` digits.) */
  lemma ParseFormat(n: int)
    requires |Magnitude(n)| <= MaxStrDigits
    ensures ParseInt(FormatInt(n)) == Some(n)
  {
    var s := FormatInt(n);
    FormatShape(n);
    assert DropLeadingSpaces(s) == s;
    assert DropTrailingSpaces(s) == s;
    FormatParses(n);
  }

  /** Whitespace around the text makes no difference to `int()`. */
  lemma ParseIgnoresPadding(s: string)
    ensures ParseInt(s) == ParseInt(Strip(s))
  {
    StripIdempotent(s);
  }

  lemma StripIdempotent(s: string)
    ensures Strip(Strip(s)) == Strip(s)
  {
    var t := Strip(s);
    TrailingSpacesDropped(DropLeadingSpaces(s));
    assert DropLeadingSpaces(t) == t;
    assert DropTrailingSpaces(t) == t;
  }

  /** Text that `int()` accepts is, once stripped, a sign and digits with
      underscores. */
  lemma ParseAccepts(s: string)
    ensures ParseInt(s).Some? ==>
              && Strip(s) != []
              && forall i :: 0 <= i < |Strip(s)| ==>
                   IsDigit(Strip(s)[i]) || Strip(s)[i] == '_' || (i == 0 && Strip(s)[i] in "+-")
  {
    var t := Strip(s);
    if ParseInt(s).Some? && t[0] in "+-" {
      assert forall i :: 1 <= i < |t| ==> t[i] == t[1..][i - 1];
    }
  }

  /** Empty or all-blank text is refused by `int()`. (Empty price text
      never reaches it, since `"" or 0` is 0; non-empty blank text is
      truthy and does.) */
  lemma BlankRefused(s: string)
    requires forall i :: 0 <= i < |s| ==> IsSpace(s[i])
    ensures ParseInt(s) == None
  {
    LeadingSpacesDropped(s);
    assert DropLeadingSpaces(s) == [];
  }

  // ---------------------------------------------------------------------
  // convert_customers

  /** A customer as written to customers.json: exactly these four fields,
      whatever other columns (such as a legacy `tanks` column) the row
      had. `None` is JSON `null`. */
  datatype Customer = Customer(
    customerCode: Option<string>,
    officialName: Option<string>,
    officialKana: Option<string>,
    unitPrice: int)

  /** The `ValueError` of `int()`, with the text it refused. */
  datatype ConvertError = NotAnInteger(text: string)

  /** `row.get(k, d)`. */
  function GetOr(row: CsvRow, k: string, d: string): Option<string> {
    if k in row then row[k] else Some(d)
  }

  /** `row.get(k)`. */
  function Get(row: CsvRow, k: string): Option<string> {
    if k in row then row[k] else None
  }

  /** One output object: `GetOr(row, k, "")` for the three text fields,
      and `int(row.get("unitPrice") or 0)` for the price. */
  function ConvertRow(row: CsvRow): Result<Customer, ConvertError> {
    var price := Get(row, "unitPrice");
    var parsed := if price.None? || price.value == "" then Some(0) else ParseInt(price.value);
    if parsed.None? then Err(NotAnInteger(price.value))
    else
      Ok(Customer(
        GetOr(row, "customerCode", ""),
        GetOr(row, "officialName", ""),
        GetOr(row, "officialKana", ""),
        parsed.value))
  }

  /** A missing text column becomes "", a missing cell stays `null`; a
      missing, `null` or empty price is 0, any other price is what `int()`
      reads, and text `int()` refuses fails the row. */
  lemma ConvertRowSpec(row: CsvRow)
    ensures "unitPrice" !in row || row["unitPrice"] in {None, Some("")} ==>
              ConvertRow(row).Ok? && ConvertRow(row).value.unitPrice == 0
    ensures "unitPrice" in row && row["unitPrice"].Some? && row["unitPrice"].value != "" ==>
              match ParseInt(row["unitPrice"].value)
              case Some(n) => ConvertRow(row).Ok? && ConvertRow(row).value.unitPrice == n
              case None => ConvertRow(row) == Err(NotAnInteger(row["unitPrice"].value))
    ensures ConvertRow(row).Ok? ==>
              && ConvertRow(row).value.customerCode == (if "customerCode" in row then row["customerCode"] else Some(""))
              && ConvertRow(row).value.officialName == (if "officialName" in row then row["officialName"] else Some(""))
              && ConvertRow(row).value.officialKana == (if "officialKana" in row then row["officialKana"] else Some(""))
  {
  }

  /** A price column holding `str(n)`, even padded with blanks, converts
      to `n`. */
  lemma PriceRoundTrip(row: CsvRow, n: int, pad: string)
    requires |Magnitude(n)| <= MaxStrDigits
    requires forall i :: 0 <= i < |pad| ==> IsSpace(pad[i])
    requires "unitPrice" in row && row["unitPrice"] == Some(FormatInt(n) + pad)
    ensures ConvertRow(row).Ok? && ConvertRow(row).value.unitPrice == n
  {
    PaddedFormatParses(n, pad);
  }

  /** `str(n)` followed by blanks reads back as `n`. */
  lemma PaddedFormatParses(n: int, pad: string)
    requires |Magnitude(n)| <= MaxStrDigits
    requires forall i :: 0 <= i < |pad| ==> IsSpace(pad[i])
    ensures ParseInt(FormatInt(n) + pad) == Some(n)
  {
    FormatShape(n);
    PaddedStrip(FormatInt(n), pad);
    FormatParses(n);
  }

  lemma {:induction false} PaddedStrip(s: string, pad: string)
    requires forall i :: 0 <= i < |pad| ==> IsSpace(pad[i])
    requires s != [] && !IsSpace(s[0]) && !IsSpace(s[|s| - 1])
    ensures Strip(s + pad) == s
  {
    assert DropLeadingSpaces(s + pad) == s + pad;
    TrailingPad(s, pad);
  }

  lemma {:induction false} TrailingPad(s: string, pad: string)
    requires forall i :: 0 <= i < |pad| ==> IsSpace(pad[i])
    requires s != [] && !IsSpace(s[|s| - 1])
    ensures DropTrailingSpaces(s + pad) == s
  {
    if pad != [] {
      var front := pad[..|pad| - 1];
      assert (s + pad)[..|s + pad| - 1] == s + front;
      TrailingPad(s, front);
    } else {
      assert s + pad == s;
    }
  }

  /** `cs` is the conversion of every row of `rows`, in order. */
  predicate ConvertsTo(rows: seq<CsvRow>, cs: seq<Customer>) {
    |cs| == |rows| && forall i :: 0 <= i < |rows| ==> ConvertRow(rows[i]) == Ok(cs[i])
  }

  /** `e` is the error of the first row of `rows` that does not convert. */
  predicate FirstError(rows: seq<CsvRow>, e: ConvertError) {
    exists i :: 0 <= i < |rows| && ConvertRow(rows[i]) == Err(e) && forall j :: 0 <= j < i ==> ConvertRow(rows[j]).Ok?
  }

  /** `convert_customers`: one object per row, in order. The first row
      whose price `int()` refuses raises, and nothing is returned. */
  method ConvertCustomers(customers: seq<CsvRow>) returns (r: Result<seq<Customer>, ConvertError>)
    ensures r.Ok? <==> forall i :: 0 <= i < |customers| ==> ConvertRow(customers[i]).Ok?
    ensures r.Ok? ==> ConvertsTo(customers, r.value)
    ensures r.Err? ==> FirstError(customers, r.error)
  {
    var out: seq<Customer> := [];
    var i := 0;
    while i < |customers|
      invariant 0 <= i <= |customers| && ConvertsTo(customers[..i], out)
    {
      var c := ConvertRow(customers[i]);
      if c.Err? {
        FirstErrorAt(customers, i, out, c.error);
        return Err(c.error);
      }
      ConvertsToSnoc(customers[..i], out, customers[i], c.value);
      assert customers[..i + 1] == customers[..i] + [customers[i]];
      out := out + [c.value];
      i := i + 1;
    }
    assert customers[..i] == customers;
    r := Ok(out);
  }

  /** Converting one more row extends the conversion by its result. */
  lemma ConvertsToSnoc(rows: seq<CsvRow>, cs: seq<Customer>, row: CsvRow, c: Customer)
    requires ConvertsTo(rows, cs) && ConvertRow(row) == Ok(c)
    ensures ConvertsTo(rows + [row], cs + [c])
  {
    assert forall i :: 0 <= i < |rows| ==> (rows + [row])[i] == rows[i] && (cs + [c])[i] == cs[i];
  }

  /** A row that fails after rows that all convert is the first error,
      and not every row converts. */
  lemma FirstErrorAt(rows: seq<CsvRow>, i: nat, cs: seq<Customer>, e: ConvertError)
    requires i < |rows| && ConvertsTo(rows[..i], cs) && ConvertRow(rows[i]) == Err(e)
    ensures FirstError(rows, e)
    ensures !forall j :: 0 <= j < |rows| ==> ConvertRow(rows[j]).Ok?
  {
    assert forall j :: 0 <= j < i ==> rows[..i][j] == rows[j];
  }

  /** `convert_tanks`: the tank rows, unchanged and in order. */
  function ConvertTanks(tanks: seq<CsvRow>): (r: seq<CsvRow>)
    ensures |r| == |tanks| && forall i :: 0 <= i < |tanks| ==> r[i] == tanks[i]
  {
    tanks
  }

  // ---------------------------------------------------------------------
  // The tank count per customer in main

  /** `t.get("customerCode")`: a missing column and a missing cell are
      both `None`. */
  function TankCode(t: CsvRow): Option<string> {
    Get(t, "customerCode")
  }

  /** The `tank_count` dictionary, keyed by code in the order the codes
      first appear. */
  ghost predicate CountsOf(tanks: seq<CsvRow>, counts: map<Option<string>, nat>, order: seq<Option<string>>) {
    && order == KeysInOrder(tanks, TankCode)
    && (forall code :: code in counts <==> code in order)
    && (forall code :: code in counts ==> counts[code] == |WithKey(tanks, TankCode, code)|)
  }

  lemma CountStep(prefix: seq<CsvRow>, t: CsvRow, counts: map<Option<string>, nat>, order: seq<Option<string>>)
    requires CountsOf(prefix, counts, order)
    ensures var code := TankCode(t);
            var n := if code in counts then counts[code] else 0;
            CountsOf(prefix + [t], counts[code := n + 1], if code in counts then order else order + [code])
  {
    var code := TankCode(t);
    KeysInOrderSnoc(prefix, t, TankCode);
    if code !in counts {
      WithKeyNonEmpty(prefix, TankCode, code);
      KeysInOrderComplete(prefix, TankCode);
    }
    forall c {
      WithKeySnoc(prefix, t, TankCode, c);
    }
  }

  /** `tank_count[code] = tank_count.get(code, 0) + 1` for every tank. */
  method CountTanks(tanks: seq<CsvRow>) returns (counts: map<Option<string>, nat>, order: seq<Option<string>>)
    ensures CountsOf(tanks, counts, order)
  {
    counts, order := map[], [];
    var i := 0;
    while i < |tanks|
      invariant 0 <= i <= |tanks|
      invariant CountsOf(tanks[..i], counts, order)
    {
      var t := tanks[i];
      var code := TankCode(t);
      assert tanks[..i + 1] == tanks[..i] + [t];
      CountStep(tanks[..i], t, counts, order);
      var n := if code in counts then counts[code] else 0;
      if code !in counts {
        order := order + [code];
      }
      counts := counts[code := n + 1];
      i := i + 1;
    }
    assert tanks[..i] == tanks;
  }

  /** Sum of the counts of the codes `ks`. */
  function Total(counts: map<Option<string>, nat>, ks: seq<Option<string>>): nat {
    if ks == [] then 0
    else Total(counts, ks[..|ks| - 1]) + (if ks[|ks| - 1] in counts then counts[ks[|ks| - 1]] else 0)
  }

  /** The counts add up to the number of tanks. */
  lemma CountsTotal(tanks: seq<CsvRow>, counts: map<Option<string>, nat>, order: seq<Option<string>>)
    requires CountsOf(tanks, counts, order)
    ensures Total(counts, order) == |tanks|
  {
    TotalIsSumSizes(tanks, counts, order);
    GroupsCoverAll(tanks, TankCode);
  }

  lemma {:induction false} TotalIsSumSizes(tanks: seq<CsvRow>, counts: map<Option<string>, nat>, ks: seq<Option<string>>)
    requires forall code :: code in ks ==> code in counts && counts[code] == |WithKey(tanks, TankCode, code)|
    ensures Total(counts, ks) == SumSizes(tanks, TankCode, ks)
  {
    if ks != [] {
      TotalIsSumSizes(tanks, counts, ks[..|ks| - 1]);
    }
  }

  /** One printed line: a customer's code and name and its tank count. */
  datatype ReportLine = ReportLine(code: Option<string>, name: Option<string>, count: nat)

  /** The report loop: `tank_count.get(code, 0)` for every customer. */
  function TankReport(customers: seq<Customer>, counts: map<Option<string>, nat>): (r: seq<ReportLine>)
    ensures |r| == |customers|
    ensures forall i :: 0 <= i < |customers| ==>
              r[i].code == customers[i].customerCode && r[i].name == customers[i].officialName
  {
    seq(|customers|, i requires 0 <= i < |customers| =>
      var code := customers[i].customerCode;
      ReportLine(code, customers[i].officialName, if code in counts then counts[code] else 0))
  }

  /** Each customer is reported with the number of tanks carrying its
      code, which is 0 exactly when no tank does. */
  lemma ReportCounts(tanks: seq<CsvRow>, customers: seq<Customer>, counts: map<Option<string>, nat>, order: seq<Option<string>>)
    requires CountsOf(tanks, counts, order)
    ensures forall i :: 0 <= i < |customers| ==>
              TankReport(customers, counts)[i].count == |WithKey(tanks, TankCode, customers[i].customerCode)|
    ensures forall i :: 0 <= i < |customers| ==>
              (TankReport(customers, counts)[i].count == 0 <==>
               forall t :: t in tanks ==> TankCode(t) != customers[i].customerCode)
  {
    KeysInOrderComplete(tanks, TankCode);
    forall code: Option<string>
      ensures WithKey(tanks, TankCode, code) != [] <==> exists t :: t in tanks && TankCode(t) == code
    {
      WithKeyNonEmpty(tanks, TankCode, code);
    }
  }

  // ---------------------------------------------------------------------
  // main

  datatype RunOutcome =
    | CustomersUnreadable
    | TanksUnreadable
    | ConversionFailed(error: ConvertError)
    | CustomersNotSaved
    | TanksNotSaved(customersJson: seq<Customer>)
    | Converted(customersJson: seq<Customer>, tanksJson: seq<CsvRow>, report: seq<ReportLine>)

  /** The JSON files `main` writes. */
  datatype JsonFile = CustomersJson | TanksJson

  /** `main` with its top-level handler: `None` for a file that could not
      be read, and a flag for each JSON file that could not be written.
      A failed step ends the run with exit status 1. `written` lists the
      files written, in order. */
  method RunConversion(customerRows: Option<seq<CsvRow>>, tankRows: Option<seq<CsvRow>>,
                       customersSaved: bool, tanksSaved: bool) returns (out: RunOutcome, written: seq<JsonFile>)
    ensures customerRows.None? ==> out == CustomersUnreadable
    ensures customerRows.Some? && tankRows.None? ==> out == TanksUnreadable
    ensures customerRows.Some? && tankRows.Some?
            && (exists i :: 0 <= i < |customerRows.value| && ConvertRow(customerRows.value[i]).Err?) ==>
              out.ConversionFailed? && FirstError(customerRows.value, out.error)
    ensures customerRows.Some? && tankRows.Some?
            && (forall i :: 0 <= i < |customerRows.value| ==> ConvertRow(customerRows.value[i]).Ok?) ==>
              && (!customersSaved ==> out == CustomersNotSaved)
              && (customersSaved && !tanksSaved ==>
                    out.TanksNotSaved? && ConvertsTo(customerRows.value, out.customersJson))
    ensures written == (if out.Converted? then [CustomersJson, TanksJson]
                        else if out.TanksNotSaved? then [CustomersJson] else [])
    ensures out.Converted? <==>
              && customerRows.Some? && tankRows.Some? && customersSaved && tanksSaved
              && forall i :: 0 <= i < |customerRows.value| ==> ConvertRow(customerRows.value[i]).Ok?
    ensures out.Converted? ==>
              && ConvertsTo(customerRows.value, out.customersJson)
              && out.tanksJson == tankRows.value
              && |out.report| == |out.customersJson|
              && forall i :: 0 <= i < |out.report| ==>
                   && out.report[i].code == out.customersJson[i].customerCode
                   && out.report[i].name == out.customersJson[i].officialName
                   && out.report[i].count == |WithKey(tankRows.value, TankCode, out.customersJson[i].customerCode)|
  {
    written := [];
    if customerRows.None? {
      return CustomersUnreadable, written;
    }
    if tankRows.None? {
      return TanksUnreadable, written;
    }
    var converted := ConvertCustomers(customerRows.value);
    if converted.Err? {
      return ConversionFailed(converted.error), written;
    }
    var customersOut := converted.value;
    var tanksOut := ConvertTanks(tankRows.value);
    if !customersSaved {
      return CustomersNotSaved, written;
    }
    written := written + [CustomersJson];
    if !tanksSaved {
      return TanksNotSaved(customersOut), written;
    }
    written := written + [TanksJson];
    var counts, order := CountTanks(tanksOut);
    ReportCounts(tanksOut, customersOut, counts, order);
    out := Converted(customersOut, tanksOut, TankReport(customersOut, counts));
  }
}
