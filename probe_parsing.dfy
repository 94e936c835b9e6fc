/**
 * Parsing of one line of the memory probe's output.
 *
 * The probe prints one header-less CSV line per device, `index, free, total`
 * (memory in MiB, no units). The scheduler strips the line, splits it on `,`
 * and converts each field with Python's `int`, unpacking exactly three values.
 */
module ProbeParsing {
  import opened Wrappers

  /** One device as reported by the probe. */
  datatype Row = Row(index: int, free: int, total: int)

  /** Why a line could not be unpacked into three integers (a Python `ValueError`). */
  datatype ParseError =
    | InvalidLiteral(field: string)   // `int()` rejected this field
    | NotEnoughValues(got: nat)       // fewer than three fields
    | TooManyValues                   // a fourth field converted successfully

  // ---------------------------------------------------------------------------
  // Whitespace and `str.strip()`
  // ---------------------------------------------------------------------------

  /** The characters Python's `str.isspace` accepts, which `str.strip()` removes. */
  predicate IsSpace(c: char) {
    c == ' ' || ('\U{9}' <= c <= '\U{D}') || ('\U{1C}' <= c <= '\U{1F}')
    || c == '\U{85}' || c == '\U{A0}' || c == '\U{1680}'
    || ('\U{2000}' <= c <= '\U{200A}') || c == '\U{2028}' || c == '\U{2029}'
    || c == '\U{202F}' || c == '\U{205F}' || c == '\U{3000}'
  }

  /**
   * Which whitespace a trim removes. `str.strip()` removes every `isspace`
   * character. `int()` skips the ASCII blanks (space, tab and `\n` to `\r`)
   * and every non-ASCII `isspace` character, but not the ASCII information
   * separators U+001C to U+001F, which it rejects like any other non-digit.
   */
  datatype Whitespace = StripWhitespace | IntWhitespace

  predicate IsBlank(ws: Whitespace, c: char) {
    IsSpace(c) && (ws == IntWhitespace ==> !('\U{1C}' <= c <= '\U{1F}'))
  }

  /** `s` with its leading whitespace removed. */
  function TrimStart(ws: Whitespace, s: string): string {
    if |s| > 0 && IsBlank(ws, s[0]) then TrimStart(ws, s[1..]) else s
  }

  /** `s` with its trailing whitespace removed. */
  function TrimEnd(ws: Whitespace, s: string): string {
    if |s| > 0 && IsBlank(ws, s[|s| - 1]) then TrimEnd(ws, s[..|s| - 1]) else s
  }

  /** `s` with the whitespace of `ws` removed at both ends. */
  function Trim(ws: Whitespace, s: string): string {
    TrimEnd(ws, TrimStart(ws, s))
  }

  /** Python's `s.strip()`. */
  function Strip(s: string): string {
    Trim(StripWhitespace, s)
  }

  /** Trimming the front leaves a suffix that was preceded only by whitespace. */
  lemma {:induction false} TrimStartSpec(ws: Whitespace, s: string)
    ensures var r := TrimStart(ws, s);
      |r| <= |s| && r == s[|s| - |r|..]
      && (forall k :: 0 <= k < |s| - |r| ==> IsBlank(ws, s[k]))
      && (r == [] || !IsBlank(ws, r[0]))
  {
    if |s| > 0 && IsBlank(ws, s[0]) {
      TrimStartSpec(ws, s[1..]);
    }
  }

  /** Trimming the back leaves a prefix that was followed only by whitespace. */
  lemma {:induction false} TrimEndSpec(ws: Whitespace, s: string)
    ensures var r := TrimEnd(ws, s);
      |r| <= |s| && r == s[..|r|]
      && (forall k :: |r| <= k < |s| ==> IsBlank(ws, s[k]))
      && (r == [] || !IsBlank(ws, r[|r| - 1]))
  {
    if |s| > 0 && IsBlank(ws, s[|s| - 1]) {
      TrimEndSpec(ws, s[..|s| - 1]);
    }
  }

  /** Trimming removes whitespace at both ends and nothing else: the result is
      the slice `s[i..i + |r|]`, with only whitespace outside it, and it neither
      starts nor ends with whitespace. For `StripWhitespace` this is `strip()`. */
  lemma StripSpec(ws: Whitespace, s: string)
    ensures var r := Trim(ws, s); var i := |s| - |TrimStart(ws, s)|;
      0 <= i <= |s| - |r| && r == s[i..i + |r|]
      && (forall k :: 0 <= k < i ==> IsBlank(ws, s[k]))
      && (forall k :: i + |r| <= k < |s| ==> IsBlank(ws, s[k]))
      && (r == [] || (!IsBlank(ws, r[0]) && !IsBlank(ws, r[|r| - 1])))
  {
    var t := TrimStart(ws, s);
    TrimStartSpec(ws, s);
    TrimEndSpec(ws, t);
    var r := TrimEnd(ws, t);
    SliceOfSuffix(s, t, r);
    assert r != [] ==> r[0] == t[0];
  }

  /** A prefix `r` of a suffix `t` of `s` is a slice of `s`. */
  lemma SliceOfSuffix(s: string, t: string, r: string)
    requires |t| <= |s| && t == s[|s| - |t|..] && |r| <= |t| && r == t[..|r|]
    ensures r == s[|s| - |t|..|s| - |t| + |r|]
    ensures forall k :: |s| - |t| + |r| <= k < |s| ==> s[k] == t[k - (|s| - |t|)]
  {
  }

  /** A string that starts and ends with non-whitespace is left alone by a trim,
      and so is it after any amount of leading whitespace. */
  lemma {:induction false} StripPadded(ws: Whitespace, pad: string, t: string)
    requires forall k :: 0 <= k < |pad| ==> IsBlank(ws, pad[k])
    requires t != [] && !IsBlank(ws, t[0]) && !IsBlank(ws, t[|t| - 1])
    ensures Trim(ws, pad + t) == t
  {
    if pad == [] {
      assert pad + t == t;
    } else {
      assert (pad + t)[1..] == pad[1..] + t;
      StripPadded(ws, pad[1..], t);
    }
  }

  // ---------------------------------------------------------------------------
  // `str.split(',')`
  // ---------------------------------------------------------------------------

  /** Glues fields back together with `sep` between them (Python's `sep.join`). */
  function Join(fields: seq<string>, sep: char): string
    requires |fields| >= 1
  {
    if |fields| == 1 then fields[0] else fields[0] + [sep] + Join(fields[1..], sep)
  }

  /** Python's `s.split(sep)` for a one-character separator: never empty, no field
      holds the separator, and joining the fields gives back `s`. */
  function Split(s: string, sep: char): (r: seq<string>)
    ensures |r| >= 1
    ensures forall i :: 0 <= i < |r| ==> sep !in r[i]
    ensures Join(r, sep) == s
  {
    if |s| == 0 then [""]
    else if s[0] == sep then [""] + Split(s[1..], sep)
    else
      var rest := Split(s[1..], sep);
      [[s[0]] + rest[0]] + rest[1..]
  }

  /** Splitting undoes joining, for fields that hold no separator. */
  lemma {:induction false} SplitJoin(fields: seq<string>, sep: char)
    requires |fields| >= 1
    requires forall i :: 0 <= i < |fields| ==> sep !in fields[i]
    ensures Split(Join(fields, sep), sep) == fields
  {
    if |fields| == 1 {
      SplitNoSep(fields[0], sep);
    } else {
      SplitJoin(fields[1..], sep);
      SplitField(fields[0], sep, Join(fields[1..], sep));
    }
  }

  /** A string without the separator splits into itself alone. */
  lemma {:induction false} SplitNoSep(s: string, sep: char)
    requires sep !in s
    ensures Split(s, sep) == [s]
  {
    if |s| > 0 {
      SplitNoSep(s[1..], sep);
    }
  }

  /** A separator-free field in front of `sep + rest` becomes the first field. */
  lemma {:induction false} SplitField(f: string, sep: char, rest: string)
    requires sep !in f
    ensures Split(f + [sep] + rest, sep) == [f] + Split(rest, sep)
  {
    if f == [] {
      assert f + [sep] + rest == [sep] + rest;
    } else {
      var s := f + [sep] + rest;
      assert s[0] == f[0] && s[0] != sep;
      assert s[1..] == f[1..] + [sep] + rest;
      SplitField(f[1..], sep, rest);
      assert [f[0]] + f[1..] == f;
    }
  }

  // ---------------------------------------------------------------------------
  // Python's `int(field)`: optional surrounding whitespace, an optional sign,
  // then one or more ASCII decimal digits
  // ---------------------------------------------------------------------------

  predicate IsDigit(c: char) {
    '0' <= c <= '9'
  }

  predicate AllDigits(t: string) {
    |t| > 0 && forall i :: 0 <= i < |t| ==> IsDigit(t[i])
  }

  /** The number a non-empty run of decimal digits denotes. */
  function DigitsValue(t: string): (n: nat)
    requires forall i :: 0 <= i < |t| ==> IsDigit(t[i])
  {
    if |t| == 0 then 0
    else
      assert IsDigit(t[|t| - 1]);
      DigitsValue(t[..|t| - 1]) * 10 + (t[|t| - 1] as int - '0' as int)
  }

  /** Python's `int(field)` in base 10; `None` stands for the `ValueError` it raises. */
  function ParseInt(field: string): Option<int> {
    var t := Trim(IntWhitespace, field);
    if |t| > 0 && (t[0] == '+' || t[0] == '-') then
      if AllDigits(t[1..]) then
        var magnitude: int := DigitsValue(t[1..]);
        Some(if t[0] == '-' then -magnitude else magnitude)
      else None
    else if AllDigits(t) then Some(DigitsValue(t))
    else None
  }

  /** Decimal rendering of a natural number, without leading zeros. */
  function ShowNat(n: nat): (s: string)
    ensures AllDigits(s)
  {
    if n < 10 then ['0' + n as char] else ShowNat(n / 10) + ['0' + (n % 10) as char]
  }

  /** Decimal rendering of an integer, with `-` for negatives. */
  function ShowInt(n: int): string {
    if n < 0 then "-" + ShowNat(-n) else ShowNat(n)
  }

  lemma {:induction false} DigitsValueShowNat(n: nat)
    ensures DigitsValue(ShowNat(n)) == n
  {
    if n >= 10 {
      var s := ShowNat(n);
      assert s[..|s| - 1] == ShowNat(n / 10);
      DigitsValueShowNat(n / 10);
    }
  }

  /** `int()` reads back any rendered integer, whatever whitespace it skips
      precedes it. */
  lemma ParseIntShowInt(pad: string, n: int)
    requires forall k :: 0 <= k < |pad| ==> IsBlank(IntWhitespace, pad[k])
    ensures ParseInt(pad + ShowInt(n)) == Some(n)
  {
    var s := ShowInt(n);
    if n < 0 {
      var m := ShowNat(-n);
      assert s[1..] == m;
      assert !IsBlank(IntWhitespace, s[|s| - 1]) by { assert s[|s| - 1] == m[|m| - 1]; }
      StripPadded(IntWhitespace, pad, s);
      ParseIntOfTrimmed(pad + s, s, n);
    } else {
      assert IsDigit(s[0]) && IsDigit(s[|s| - 1]);
      StripPadded(IntWhitespace, pad, s);
      ParseIntOfTrimmed(pad + s, s, n);
    }
  }

  /** A field whose trimmed text is a rendered integer converts to it. */
  lemma ParseIntOfTrimmed(field: string, s: string, n: int)
    requires Trim(IntWhitespace, field) == s && s == ShowInt(n)
    ensures ParseInt(field) == Some(n)
  {
    if n < 0 {
      assert s[1..] == ShowNat(-n);
      DigitsValueShowNat(-n);
    } else {
      DigitsValueShowNat(n);
    }
  }

  /** `int()` rejects a blank field, and any field whose stripped text holds a
      character other than a digit past a leading sign. */
  lemma ParseIntRejects(field: string, k: nat)
    requires var t := Trim(IntWhitespace, field);
      k < |t| && !IsDigit(t[k]) && (k == 0 ==> t[0] != '+' && t[0] != '-')
    ensures ParseInt(field) == None
  {
  }

  lemma ParseIntBlank(field: string)
    requires forall k :: 0 <= k < |field| ==> IsSpace(field[k])
    ensures ParseInt(field) == None
  {
    StripSpec(IntWhitespace, field);
    var t := Trim(IntWhitespace, field);
    if t != [] {
      assert IsSpace(t[0]) && !IsDigit(t[0]);
    }
  }

  /** The converse of `ParseIntShowInt`: `int()` accepts only an optional sign
      followed by one or more ASCII digits, with blanks it skips around them; a
      lone sign is rejected. */
  lemma ParseIntAccepts(field: string)
    requires ParseInt(field).Some?
    ensures var t := Trim(IntWhitespace, field);
      AllDigits(t) || (|t| > 1 && (t[0] == '+' || t[0] == '-') && AllDigits(t[1..]))
  {
  }

  /** `int()` does not skip the information separators U+001C to U+001F, though
      `strip()` removes them. */
  lemma ParseIntKeepsSeparators(n: nat)
    ensures ParseInt(['\U{1C}'] + ShowNat(n)) == None
    ensures Strip(['\U{1C}'] + ShowNat(n)) == ShowNat(n)
  {
    var s := ShowNat(n);
    assert IsDigit(s[0]) && IsDigit(s[|s| - 1]);
    StripPadded(StripWhitespace, ['\U{1C}'], s);
    var field := ['\U{1C}'] + s;
    assert TrimStart(IntWhitespace, field) == field;
    TrimEndSpec(IntWhitespace, field);
    var t := Trim(IntWhitespace, field);
    assert t[0] == '\U{1C}';
  }

  // ---------------------------------------------------------------------------
  // `idx, free_mem, total_mem = map(int, line.strip().split(','))`
  // ---------------------------------------------------------------------------

  /** Converts the fields in order, stopping at the first one `int()` rejects. */
  function ConvertAll(fields: seq<string>): Result<seq<int>, ParseError> {
    if fields == [] then Ok([])
    else match ParseInt(fields[0])
      case None => Err(InvalidLiteral(fields[0]))
      case Some(v) =>
        var rest := ConvertAll(fields[1..]);
        if rest.Err? then rest else Ok([v] + rest.value)
  }

  /** Conversion succeeds exactly when `int()` accepts every field, and then yields
      their values in order; otherwise it reports the first field `int()` rejects. */
  lemma {:induction false} ConvertAllSpec(fields: seq<string>)
    ensures var r := ConvertAll(fields);
      && (r.Ok? <==> forall i :: 0 <= i < |fields| ==> ParseInt(fields[i]).Some?)
      && (r.Ok? ==>
        |r.value| == |fields| && forall i :: 0 <= i < |fields| ==> ParseInt(fields[i]) == Some(r.value[i]))
      && (r.Err? ==>
        exists i :: 0 <= i < |fields| && ParseInt(fields[i]).None?
          && (forall j :: 0 <= j < i ==> ParseInt(fields[j]).Some?)
          && r.error == InvalidLiteral(fields[i]))
  {
    if fields != [] && ParseInt(fields[0]).Some? {
      ConvertAllSpec(fields[1..]);
      assert forall i :: 1 <= i < |fields| ==> fields[i] == fields[1..][i - 1];
      var r := ConvertAll(fields[1..]);
      if r.Err? {
        var i :| 0 <= i < |fields[1..]| && ParseInt(fields[1..][i]).None?
          && (forall j :: 0 <= j < i ==> ParseInt(fields[1..][j]).Some?)
          && r.error == InvalidLiteral(fields[1..][i]);
        assert forall j :: 0 <= j < i + 1 ==> ParseInt(fields[j]).Some?;
      }
    }
  }

  /** The fields of a probe line. */
  function Fields(line: string): seq<string> {
    Split(Strip(line), ',')
  }

  /**
   * One probe line as three integers. Unpacking a `map` iterator into three
   * names draws at most four values from it (the fourth only to check that there
   * is none), so at most the first four fields are ever converted, in order.
   */
  function ParseLine(line: string): Result<Row, ParseError> {
    var fields := Fields(line);
    var drawn := if |fields| < 4 then fields else fields[..4];
    match ConvertAll(drawn)
    case Err(e) => Err(e)
    case Ok(vs) =>
      if |vs| < 3 then Err(NotEnoughValues(|vs|))
      else if |vs| > 3 then Err(TooManyValues)
      else Ok(Row(vs[0], vs[1], vs[2]))
  }

  /** A line parses exactly when it has three fields and `int()` accepts each;
      the row then holds those three values in order. */
  lemma ParseLineOk(line: string)
    ensures var fields := Fields(line);
      ParseLine(line).Ok? <==>
        (|fields| == 3 && forall i :: 0 <= i < 3 ==> ParseInt(fields[i]).Some?)
    ensures var fields := Fields(line);
      ParseLine(line).Ok? ==>
        ParseInt(fields[0]) == Some(ParseLine(line).value.index)
        && ParseInt(fields[1]) == Some(ParseLine(line).value.free)
        && ParseInt(fields[2]) == Some(ParseLine(line).value.total)
  {
    var fields := Fields(line);
    var drawn := if |fields| < 4 then fields else fields[..4];
    ConvertAllSpec(drawn);
    if |fields| < 4 {
      assert fields[..|fields|] == fields;
    }
  }

  /** A line with the wrong number of commas is an error, never a row. */
  lemma ParseLineFieldCount(line: string)
    requires |Fields(line)| != 3
    ensures ParseLine(line).Err?
  {
    ParseLineOk(line);
  }

  /** The probe's own rendering of a row: `index, free, total`. */
  function FormatRow(row: Row): string {
    ShowInt(row.index) + ", " + ShowInt(row.free) + ", " + ShowInt(row.total)
  }

  /** Parsing a line of the probe's format gives back the row it renders. */
  lemma ParseFormatRow(row: Row)
    ensures ParseLine(FormatRow(row)) == Ok(row)
  {
    var fields := [ShowInt(row.index), " " + ShowInt(row.free), " " + ShowInt(row.total)];
    FieldsOfFormatRow(row);
    ParseIntShowInt("", row.index);
    assert "" + ShowInt(row.index) == fields[0];
    ParseIntShowInt(" ", row.free);
    ParseIntShowInt(" ", row.total);
    ConvertAllOk(fields, [row.index, row.free, row.total]);
  }

  lemma ConvertAllOk(fields: seq<string>, vs: seq<int>)
    requires |fields| == |vs|
    requires forall i :: 0 <= i < |fields| ==> ParseInt(fields[i]) == Some(vs[i])
    ensures ConvertAll(fields) == Ok(vs)
  {
    ConvertAllSpec(fields);
    var r := ConvertAll(fields);
    assert r.Ok?;
    assert r.value == vs;
  }

  /** The rendered line is already stripped and splits into its three fields. */
  lemma FieldsOfFormatRow(row: Row)
    ensures Fields(FormatRow(row)) == [ShowInt(row.index), " " + ShowInt(row.free), " " + ShowInt(row.total)]
  {
    var fields := [ShowInt(row.index), " " + ShowInt(row.free), " " + ShowInt(row.total)];
    var line := FormatRow(row);
    FormatRowIsJoin(row);
    FormatRowIsStripped(row);
    NoComma(row.index);
    NoComma(row.free);
    NoComma(row.total);
    SplitJoin(fields, ',');
  }

  lemma FormatRowIsJoin(row: Row)
    ensures FormatRow(row) == Join([ShowInt(row.index), " " + ShowInt(row.free), " " + ShowInt(row.total)], ',')
  {
    JoinThree(ShowInt(row.index), ShowInt(row.free), ShowInt(row.total));
  }

  lemma JoinThree(x: string, y: string, z: string)
    ensures x + ", " + y + ", " + z == Join([x, " " + y, " " + z], ',')
  {
    var b, c := " " + y, " " + z;
    assert Join([b, c], ',') == b + [','] + c by { assert [b, c][1..] == [c]; }
    assert Join([x, b, c], ',') == x + [','] + Join([b, c], ',') by { assert [x, b, c][1..] == [b, c]; }
    assert ", " + y == [','] + b;
    assert ", " + z == [','] + c;
  }

  lemma FormatRowIsStripped(row: Row)
    ensures Strip(FormatRow(row)) == FormatRow(row)
  {
    var line := FormatRow(row);
    var a, z := ShowInt(row.index), ShowInt(row.total);
    assert line[0] == a[0];
    if row.index >= 0 { assert IsDigit(a[0]); }
    assert line[|line| - 1] == z[|z| - 1];
    if row.total < 0 { assert z[|z| - 1] == ShowNat(-row.total)[|ShowNat(-row.total)| - 1]; }
    StripPadded(StripWhitespace, "", line);
    assert "" + line == line;
  }

  lemma NoComma(n: int)
    ensures ',' !in ShowInt(n) && ',' !in " " + ShowInt(n)
  {
    var s := if n < 0 then ShowNat(-n) else ShowNat(n);
    assert forall i :: 0 <= i < |s| ==> s[i] != ',';
  }
}
