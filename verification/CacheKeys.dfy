/** The key of the schema create cache, and that it can be decoded (backend/database/schema_create_cache.cc). */
module CacheKeys {
  import opened Collections

  predicate IsDigit(c: char) {
    '0' <= c <= '9'
  }

  function Digit(d: nat): char
    requires d < 10
  {
    ['0', '1', '2', '3', '4', '5', '6', '7', '8', '9'][d]
  }

  function DigitValue(c: char): nat
    requires IsDigit(c)
  {
    c as int - '0' as int
  }

  /** A number as absl::StrCat writes it. */
  function Decimal(n: nat): string {
    if n < 10 then [Digit(n)] else Decimal(n / 10) + [Digit(n % 10)]
  }

  function NumberOf(s: string): nat
    requires forall i :: 0 <= i < |s| ==> IsDigit(s[i])
  {
    if s == [] then 0 else NumberOf(s[..|s| - 1]) * 10 + DigitValue(s[|s| - 1])
  }

  lemma {:induction false} DecimalIsNumber(n: nat)
    ensures forall i :: 0 <= i < |Decimal(n)| ==> IsDigit(Decimal(n)[i])
    ensures NumberOf(Decimal(n)) == n && Decimal(n) != []
  {
    if n >= 10 {
      DecimalIsNumber(n / 10);
      var s := Decimal(n);
      assert s[..|s| - 1] == Decimal(n / 10);
    } else {
      var s := Decimal(n);
      assert s[..|s| - 1] == [];
    }
  }

  /** How many leading characters are digits. */
  function Digits(s: string): (n: nat)
    ensures n <= |s| && (forall i :: 0 <= i < n ==> IsDigit(s[i])) && (n < |s| ==> !IsDigit(s[n]))
  {
    if s == [] || !IsDigit(s[0]) then 0 else 1 + Digits(s[1..])
  }

  lemma DigitsStop(n: nat, rest: string)
    requires rest != [] && !IsDigit(rest[0])
    ensures var s := Decimal(n) + rest;
      Digits(s) == |Decimal(n)| && s[..Digits(s)] == Decimal(n) && s[Digits(s)..] == rest
  {
    DecimalIsNumber(n);
    var s := Decimal(n) + rest;
    assert s[|Decimal(n)|] == rest[0];
  }

  // ---------------------------------------------------------------------------
  // Length-prefixed fields
  // ---------------------------------------------------------------------------

  function Field(s: string): string {
    Decimal(|s|) + ":" + s
  }

  /** Reads a field off the front. */
  function TakeField(s: string): Option<(string, string)> {
    var d := Digits(s);
    if d == 0 || d == |s| || s[d] != ':' then None
    else
      var n, rest := NumberOf(s[..d]), s[d + 1..];
      if n > |rest| then None else Some((rest[..n], rest[n..]))
  }

  lemma FieldTaken(s: string, rest: string)
    ensures TakeField(Field(s) + rest) == Some((s, rest))
  {
    hide Decimal, NumberOf, Digits;
    var tail := ":" + s + rest;
    DigitsStop(|s|, tail);
    DecimalIsNumber(|s|);
    var whole := Field(s) + rest;
    assert whole == Decimal(|s|) + tail;
    assert whole[Digits(whole) + 1..] == tail[1..] == s + rest;
  }

  /** Reads `prefix` off the front. */
  function TakePrefix(s: string, prefix: string): Option<string> {
    if |prefix| <= |s| && s[..|prefix|] == prefix then Some(s[|prefix|..]) else None
  }

  // ---------------------------------------------------------------------------
  // Settings
  // ---------------------------------------------------------------------------

  /** The feature flags' bytes and the values of the command line flags, whose names are fixed. */
  datatype Settings = Settings(flags: string, values: seq<string>)

  function FlagValues(names: seq<string>, values: seq<string>): string
    requires |names| == |values|
    decreases |names|
  {
    if names == [] then "" else ";" + names[0] + "=" + Field(values[0]) + FlagValues(names[1..], values[1..])
  }

  function SettingsString(names: seq<string>, settings: Settings): string
    requires |names| == |settings.values|
  {
    Field(settings.flags) + FlagValues(names, settings.values)
  }

  /** The loop of SettingsValues. */
  method SettingsValues(names: seq<string>, settings: Settings) returns (values: string)
    requires |names| == |settings.values|
    ensures values == SettingsString(names, settings)
  {
    values := Decimal(|settings.flags|) + ":" + settings.flags;
    ghost var whole := SettingsString(names, settings);
    for i := 0 to |names|
      invariant values + FlagValues(names[i..], settings.values[i..]) == whole
    {
      ghost var before := values;
      values := values + (";" + names[i] + "=" + Decimal(|settings.values[i]|) + ":" + settings.values[i]);
      assert names[i..][1..] == names[i + 1..] && settings.values[i..][1..] == settings.values[i + 1..];
      assert ";" + names[i] + "=" + Decimal(|settings.values[i]|) + ":" + settings.values[i] ==
             ";" + names[i] + "=" + Field(settings.values[i]);
      assert values + FlagValues(names[i + 1..], settings.values[i + 1..]) ==
             before + FlagValues(names[i..], settings.values[i..]);
    }
    assert values + "" == values;
  }

  function DecodeFlagValues(names: seq<string>, s: string): Option<seq<string>>
    decreases |names|
  {
    if names == [] then (if s == "" then Some([]) else None)
    else
      match TakePrefix(s, ";" + names[0] + "=")
      case None => None
      case Some(tail) =>
        match TakeField(tail)
        case None => None
        case Some((value, rest)) =>
          match DecodeFlagValues(names[1..], rest)
          case None => None
          case Some(values) => Some([value] + values)
  }

  function DecodeSettings(names: seq<string>, s: string): Option<Settings> {
    match TakeField(s)
    case None => None
    case Some((flags, rest)) =>
      match DecodeFlagValues(names, rest)
      case None => None
      case Some(values) => Some(Settings(flags, values))
  }

  lemma PrefixTaken(prefix: string, rest: string)
    ensures TakePrefix(prefix + rest, prefix) == Some(rest)
  {
  }

  lemma {:induction false} FlagValuesDecode(names: seq<string>, values: seq<string>)
    requires |names| == |values|
    ensures DecodeFlagValues(names, FlagValues(names, values)) == Some(values)
    decreases |names|
  {
    hide TakePrefix, TakeField, Field;
    if names != [] {
      var prefix, rest := ";" + names[0] + "=", FlagValues(names[1..], values[1..]);
      assert FlagValues(names, values) == prefix + (Field(values[0]) + rest);
      PrefixTaken(prefix, Field(values[0]) + rest);
      FieldTaken(values[0], rest);
      FlagValuesDecode(names[1..], values[1..]);
      assert values == [values[0]] + values[1..];
    }
  }

  lemma SettingsDecode(names: seq<string>, settings: Settings)
    requires |names| == |settings.values|
    ensures DecodeSettings(names, SettingsString(names, settings)) == Some(settings)
  {
    hide TakeField, Field, FlagValues, DecodeFlagValues;
    FieldTaken(settings.flags, FlagValues(names, settings.values));
    FlagValuesDecode(names, settings.values);
  }

  // ---------------------------------------------------------------------------
  // Keys
  // ---------------------------------------------------------------------------

  datatype Request = Request(dialect: nat, settings: string, descriptors: string, statements: seq<string>)

  function StatementFields(statements: seq<string>): string {
    if statements == [] then "" else ";" + Field(statements[0]) + StatementFields(statements[1..])
  }

  function KeyOf(r: Request): string {
    Decimal(r.dialect) + ";" + Field(r.settings) + ";" + Field(r.descriptors) + StatementFields(r.statements)
  }

  method Key(r: Request) returns (key: string)
    ensures key == KeyOf(r)
  {
    key := Decimal(r.dialect) + ";" + Decimal(|r.settings|) + ":" + r.settings +
           ";" + Decimal(|r.descriptors|) + ":" + r.descriptors;
    assert key == Decimal(r.dialect) + ";" + Field(r.settings) + ";" + Field(r.descriptors);
    for i := 0 to |r.statements|
      invariant key + StatementFields(r.statements[i..]) == KeyOf(r)
    {
      ghost var before := key;
      key := key + (";" + Decimal(|r.statements[i]|) + ":" + r.statements[i]);
      assert r.statements[i..][1..] == r.statements[i + 1..];
      assert ";" + Decimal(|r.statements[i]|) + ":" + r.statements[i] == ";" + Field(r.statements[i]);
      assert key + StatementFields(r.statements[i + 1..]) == before + StatementFields(r.statements[i..]);
    }
    assert key + "" == key;
  }

  function DecodeStatements(s: string): Option<seq<string>>
    decreases |s|
  {
    if s == "" then Some([])
    else
      match TakePrefix(s, ";")
      case None => None
      case Some(tail) =>
        match TakeField(tail)
        case None => None
        case Some((statement, rest)) =>
          if |rest| >= |s| then None
          else
            match DecodeStatements(rest)
            case None => None
            case Some(statements) => Some([statement] + statements)
  }

  function DecodeKey(s: string): Option<Request> {
    var d := Digits(s);
    if d == 0 then None
    else
      match TakePrefix(s[d..], ";")
      case None => None
      case Some(afterDialect) =>
        match TakeField(afterDialect)
        case None => None
        case Some((settings, tail)) =>
          match TakePrefix(tail, ";")
          case None => None
          case Some(afterSettings) =>
            match TakeField(afterSettings)
            case None => None
            case Some((descriptors, rest)) =>
              match DecodeStatements(rest)
              case None => None
              case Some(statements) => Some(Request(NumberOf(s[..d]), settings, descriptors, statements))
  }

  lemma {:induction false} StatementsDecode(statements: seq<string>)
    ensures DecodeStatements(StatementFields(statements)) == Some(statements)
    decreases |statements|
  {
    hide TakePrefix, TakeField, Field;
    if statements != [] {
      var rest := StatementFields(statements[1..]);
      assert StatementFields(statements) == ";" + (Field(statements[0]) + rest);
      PrefixTaken(";", Field(statements[0]) + rest);
      FieldTaken(statements[0], rest);
      StatementsDecode(statements[1..]);
      assert statements == [statements[0]] + statements[1..];
    }
  }

  /** Decoding a key gives back the request it was made from. */
  lemma KeyDecodes(r: Request)
    ensures DecodeKey(KeyOf(r)) == Some(r)
  {
    hide TakePrefix, TakeField, Field, StatementFields, DecodeStatements;
    var statements := StatementFields(r.statements);
    var tail := ";" + (Field(r.descriptors) + statements);
    var rest := ";" + (Field(r.settings) + tail);
    assert KeyOf(r) == Decimal(r.dialect) + rest;
    DigitsStop(r.dialect, rest);
    DecimalIsNumber(r.dialect);
    PrefixTaken(";", Field(r.settings) + tail);
    FieldTaken(r.settings, tail);
    PrefixTaken(";", Field(r.descriptors) + statements);
    FieldTaken(r.descriptors, statements);
    StatementsDecode(r.statements);
  }

  /** Different dialects, settings, descriptors or statements have different keys. */
  lemma KeyIsInjective(names: seq<string>, a: Request, b: Request, sa: Settings, sb: Settings)
    requires |names| == |sa.values| == |sb.values|
    requires a.settings == SettingsString(names, sa) && b.settings == SettingsString(names, sb)
    ensures KeyOf(a) == KeyOf(b) <==>
            a.dialect == b.dialect && sa == sb && a.descriptors == b.descriptors && a.statements == b.statements
  {
    hide KeyOf, DecodeKey, SettingsString, DecodeSettings;
    KeyDecodes(a);
    KeyDecodes(b);
    SettingsDecode(names, sa);
    SettingsDecode(names, sb);
  }

  /** The length, a colon and the text. */
  lemma FieldLooksLikeThis(s: string)
    requires |s| < 10
    ensures |Field(s)| == |s| + 2 && Field(s)[0] as int == '0' as int + |s| && Field(s)[1] == ':' && Field(s)[2..] == s
  {
    assert Decimal(|s|) == [Digit(|s|)];
  }

  /** The settings string as the source writes it. */
  lemma SettingsLookLikeThis()
    ensures SettingsString(["x"], Settings("F", ["v"])) == "1:F;x=1:v"
  {
    hide Field;
    FieldLooksLikeThis("F");
    FieldLooksLikeThis("v");
    assert Field("F") == "1:F" && Field("v") == "1:v";
    assert FlagValues(["x"], ["v"]) == ";" + "x" + "=" + Field("v") + FlagValues(["x"][1..], ["v"][1..]);
  }

  /** The key as the source writes it. */
  lemma KeyLooksLikeThis()
    ensures KeyOf(Request(2, "ab", "c", ["d"])) == "2;2:ab;1:c;1:d"
  {
    hide Field;
    FieldLooksLikeThis("ab");
    FieldLooksLikeThis("c");
    FieldLooksLikeThis("d");
    assert Field("ab") == "2:ab" && Field("c") == "1:c" && Field("d") == "1:d";
    assert Decimal(2) == "2";
    assert StatementFields(["d"]) == ";" + Field("d") + StatementFields(["d"][1..]);
  }
}
