/** The tag-list reader's CSV records (opcua-bridge/src/registry.cpp, lines
    23-47) against the quoting rules of section 2 of RFC 4180. */
module Csv {
  import opened Words

  datatype CsvError = UnterminatedQuote

  /** The parser's reading of the rest of a line: quoted or not, with a field
      under way and the fields before it. */
  function ParseFrom(s: string, quoted: bool, field: string, fields: seq<string>): Result<seq<string>, CsvError>
    decreases |s|
  {
    if s == "" then if quoted then Err(UnterminatedQuote) else Ok(fields + [field])
    else if s[0] == '"' then
      if quoted && |s| > 1 && s[1] == '"' then ParseFrom(s[2..], quoted, field + ['"'], fields)
      else ParseFrom(s[1..], !quoted, field, fields)
    else if s[0] == ',' && !quoted then ParseFrom(s[1..], quoted, "", fields + [field])
    else ParseFrom(s[1..], quoted, field + [s[0]], fields)
  }

  function Parse(line: string): Result<seq<string>, CsvError> {
    ParseFrom(line, false, "", [])
  }

  method ParseCsvRecord(line: string) returns (r: Result<seq<string>, CsvError>)
    ensures r == Parse(line)
  {
    var fields: seq<string>, field: string, quoted := [], "", false;
    var index := 0;
    assert line[0..] == line;
    while index < |line|
      invariant index <= |line|
      invariant ParseFrom(line[index..], quoted, field, fields) == Parse(line)
    {
      var ch := line[index];
      if ch == '"' {
        if quoted && index + 1 < |line| && line[index + 1] == '"' {
          field := field + ['"'];
          index := index + 1;
        } else {
          quoted := !quoted;
        }
      } else if ch == ',' && !quoted {
        fields := fields + [field];
        field := "";
      } else {
        field := field + [ch];
      }
      index := index + 1;
    }
    if quoted {
      return Err(UnterminatedQuote);
    }
    r := Ok(fields + [field]);
  }

  // ---------- writing a record as RFC 4180 does ----------

  function Doubled(s: string): string {
    if s == "" then "" else (if s[0] == '"' then ['"', '"'] else [s[0]]) + Doubled(s[1..])
  }

  /** A field may be written as it is if it holds no quote and no comma. */
  predicate Plain(s: string) {
    '"' !in s && ',' !in s
  }

  /** One field, quoted or, where that is allowed, as it is. */
  function Written(field: string, quoted: bool): string {
    if quoted then ['"'] + Doubled(field) + ['"'] else field
  }

  /** A comma-separated record; `quotes` says which fields are quoted. */
  function Record(fields: seq<string>, quotes: seq<bool>): string
    requires |fields| == |quotes| > 0
  {
    var n := |fields| - 1;
    (if n == 0 then "" else Record(fields[..n], quotes[..n]) + [',']) + Written(fields[n], quotes[n])
  }

  // ---------- round trip ----------

  lemma {:induction false} ReadDoubled(s: string, rest: string, field: string, fields: seq<string>)
    requires rest == "" || rest[0] != '"'
    ensures ParseFrom(Doubled(s) + ['"'] + rest, true, field, fields) == ParseFrom(rest, false, field + s, fields)
    decreases |s|
  {
    if s == "" {
      var t := Doubled(s) + ['"'] + rest;
      assert t[1..] == rest && field + s == field;
    } else {
      var t := Doubled(s) + ['"'] + rest;
      var tail := Doubled(s[1..]) + ['"'] + rest;
      assert t == (if s[0] == '"' then ['"', '"'] else [s[0]]) + tail;
      if s[0] == '"' {
        assert t[2..] == tail;
      } else {
        assert t[1..] == tail;
      }
      ReadDoubled(s[1..], rest, field + [s[0]], fields);
      assert field + [s[0]] + s[1..] == field + s;
    }
  }

  lemma {:induction false} ReadPlain(s: string, rest: string, field: string, fields: seq<string>)
    requires Plain(s)
    ensures ParseFrom(s + rest, false, field, fields) == ParseFrom(rest, false, field + s, fields)
    decreases |s|
  {
    if s == "" {
      assert s + rest == rest && field + s == field;
    } else {
      assert (s + rest)[1..] == s[1..] + rest;
      ReadPlain(s[1..], rest, field + [s[0]], fields);
      assert field + [s[0]] + s[1..] == field + s;
    }
  }

  lemma ReadWritten(field: string, quoted: bool, rest: string, fields: seq<string>)
    requires quoted || Plain(field)
    requires rest == "" || rest[0] == ','
    ensures ParseFrom(Written(field, quoted) + rest, false, "", fields) == ParseFrom(rest, false, field, fields)
  {
    assert "" + field == field;
    if quoted {
      var t := Written(field, quoted) + rest;
      assert t[1..] == Doubled(field) + ['"'] + rest;
      ReadDoubled(field, rest, "", fields);
    } else {
      ReadPlain(field, rest, "", fields);
    }
  }

  lemma ReadComma(rest: string, field: string, fields: seq<string>)
    ensures ParseFrom([','] + rest, false, field, fields) == ParseFrom(rest, false, "", fields + [field])
  {
    assert ([','] + rest)[1..] == rest;
  }

  lemma {:induction false} ReadRecord(fields: seq<string>, quotes: seq<bool>, rest: string)
    requires |fields| == |quotes| > 0 && forall i :: 0 <= i < |fields| ==> quotes[i] || Plain(fields[i])
    requires rest == "" || rest[0] == ','
    ensures ParseFrom(Record(fields, quotes) + rest, false, "", [])
         == ParseFrom(rest, false, fields[|fields| - 1], fields[..|fields| - 1])
    decreases |fields|
  {
    hide ParseFrom, Written;
    var n := |fields| - 1;
    var last := Written(fields[n], quotes[n]) + rest;
    if n == 0 {
      assert Record(fields, quotes) + rest == last && fields[..0] == [];
      ReadWritten(fields[0], quotes[0], rest, []);
    } else {
      assert Record(fields, quotes) + rest == Record(fields[..n], quotes[..n]) + ([','] + last);
      ReadRecord(fields[..n], quotes[..n], [','] + last);
      ReadComma(last, fields[n - 1], fields[..n - 1]);
      assert fields[..n][..n - 1] == fields[..n - 1];
      assert fields[..n - 1] + [fields[n - 1]] == fields[..n];
      ReadWritten(fields[n], quotes[n], rest, fields[..n]);
    }
  }

  /** Reading back a written record gives its fields, whatever characters they
      hold, if every field that needs quotes has them. */
  lemma RecordRoundTrip(fields: seq<string>, quotes: seq<bool>)
    requires |fields| == |quotes| > 0 && forall i :: 0 <= i < |fields| ==> quotes[i] || Plain(fields[i])
    ensures Parse(Record(fields, quotes)) == Ok(fields)
  {
    ReadRecord(fields, quotes, "");
    assert Record(fields, quotes) + "" == Record(fields, quotes);
    assert fields[..|fields| - 1] + [fields[|fields| - 1]] == fields;
  }

  // ---------- what is rejected ----------

  function QuoteCount(s: string): nat {
    if s == "" then 0 else (if s[0] == '"' then 1 else 0) + QuoteCount(s[1..])
  }

  lemma {:induction false} RejectedFrom(s: string, quoted: bool, field: string, fields: seq<string>)
    ensures ParseFrom(s, quoted, field, fields).Err? <==> (QuoteCount(s) + if quoted then 1 else 0) % 2 == 1
    decreases |s|
  {
    if s != "" {
      if s[0] == '"' && quoted && |s| > 1 && s[1] == '"' {
        assert s[1..][1..] == s[2..];
        RejectedFrom(s[2..], quoted, field + ['"'], fields);
      } else if s[0] == '"' {
        RejectedFrom(s[1..], !quoted, field, fields);
      } else if s[0] == ',' && !quoted {
        RejectedFrom(s[1..], quoted, "", fields + [field]);
      } else {
        RejectedFrom(s[1..], quoted, field + [s[0]], fields);
      }
    }
  }

  /** A line is rejected exactly when its number of quotes is odd. */
  lemma RejectedExactly(line: string)
    ensures Parse(line).Err? <==> QuoteCount(line) % 2 == 1
  {
    RejectedFrom(line, false, "", []);
  }
}
