/** The `/proc/meminfo` field lookup: the line scan of
    `getProcMeminfoValueInBytes` and the `"<n> kB"` conversion of
    `extractMeminfoItemInBytes`, as pure functions of the file's text. */
module Meminfo {
  import opened Common
  import opened Text

  /** A `key: value` line, both halves trimmed. */
  datatype Field = Field(key: string, value: string)

  /** Splits one line on `:`. Only a line that splits into exactly two
      parts, that is one with a single colon, yields a field. */
  function ParseLine(line: string): (r: Option<Field>)
    ensures r.Some? <==> Occurrences(line, ':') == 1
    ensures r.Some? ==>
      exists k | 0 <= k < |line| && line[k] == ':' :: r.value == Field(Trim(line[..k]), Trim(line[k + 1..]))
  {
    var parts := Split(line, ':');
    if |parts| != 2 then None
    else
      SplitInTwo(line, ':');
      Some(Field(Trim(parts[0]), Trim(parts[1])))
  }

  /** The unit suffix the conversion understands. */
  const KiloBytes: string := "kB"

  /** Converts a field value of the form `"<n> kB"` to `n * 1024` bytes.
      The value must split on a single space into exactly two tokens, the
      first numeric and the second exactly `kB`; anything else is `None`. */
  function KbToBytes(value: string): (r: Option<int>)
    ensures r.Some? ==> r.value % 1024 == 0
    ensures r.Some? ==>
      exists t | IsNumeric(t) :: value == t + " " + KiloBytes && r.value == IntCast(t) * 1024
  {
    var parts := Split(value, ' ');
    if |parts| != 2 then None
    else if !IsNumeric(parts[0]) then None
    else if parts[1] == KiloBytes then
      assert parts == [parts[0], parts[1]];
      JoinTwo(parts[0], ' ', parts[1]);
      Some(IntCast(parts[0]) * 1024)
    else None
  }

  lemma NumericHasNoSeparators(t: string)
    requires IsNumeric(t)
    ensures ' ' !in t && ':' !in t && '\n' !in t
  {
    forall k | 0 <= k < |t| ensures IsDigit(t[k]) || t[k] == '-' {
      if k > 0 && !AllDigits(t) {
        assert t[k] == t[1..][k - 1];
      }
    }
  }

  /** Every numeric token followed by ` kB` converts, to 1024 times its value. */
  lemma KbToBytesAccepts(t: string)
    requires IsNumeric(t)
    ensures KbToBytes(t + " " + KiloBytes) == Some(IntCast(t) * 1024)
  {
    NumericHasNoSeparators(t);
    assert t + " " + KiloBytes == t + [' '] + KiloBytes;
    SplitTwo(t, ' ', KiloBytes);
  }

  /** Rendering `n` kilobytes and converting back gives `n * 1024` bytes. */
  lemma KbRoundTrip(n: int)
    ensures KbToBytes(ShowInt(n) + " " + KiloBytes) == Some(n * 1024)
  {
    ShowIntRoundTrip(n);
    KbToBytesAccepts(ShowInt(n));
  }

  /** Any other unit is refused, even with a well-formed number. */
  lemma KbToBytesRejectsOtherUnits(t: string, unit: string)
    requires IsNumeric(t) && ' ' !in unit && unit != KiloBytes
    ensures KbToBytes(t + " " + unit) == None
  {
    NumericHasNoSeparators(t);
    assert t + " " + unit == t + [' '] + unit;
    SplitTwo(t, ' ', unit);
  }

  /** True when the parsed line is a field named `key`. */
  predicate Carries(field: Option<Field>, key: string)
  {
    field.Some? && field.value.key == key
  }

  /** Scans parsed lines in order; the first field named `key` decides the
      result. */
  function LookupFields(fields: seq<Option<Field>>, key: string): (r: Option<int>)
    ensures r.Some? ==> r.value % 1024 == 0
  {
    if |fields| == 0 then None
    else if Carries(fields[0], key) then KbToBytes(fields[0].value.value)
    else LookupFields(fields[1..], key)
  }

  /** A value is only ever found on a line carrying the key. */
  lemma {:induction false} LookupFieldsCarried(fields: seq<Option<Field>>, key: string)
    requires LookupFields(fields, key).Some?
    ensures exists k | 0 <= k < |fields| :: Carries(fields[k], key)
  {
    if !Carries(fields[0], key) {
      LookupFieldsCarried(fields[1..], key);
      var k :| 0 <= k < |fields| - 1 && Carries(fields[1..][k], key);
      assert fields[k + 1] == fields[1..][k];
    }
  }

  /** When no line carries the key, the lookup finds nothing. */
  lemma {:induction false} LookupMissingKey(fields: seq<Option<Field>>, key: string)
    requires forall j | 0 <= j < |fields| :: !Carries(fields[j], key)
    ensures LookupFields(fields, key) == None
  {
    if |fields| > 0 {
      var rest := fields[1..];
      forall j | 0 <= j < |rest| ensures !Carries(rest[j], key) {
        assert rest[j] == fields[j + 1];
      }
      LookupMissingKey(rest, key);
    }
  }

  /** The first line carrying the key decides the lookup: its value is
      converted, and a value that fails to convert gives `None` even when a
      later line carries the same key with a good value. */
  lemma {:induction false} LookupFirstMatch(fields: seq<Option<Field>>, key: string, i: nat)
    requires i < |fields| && Carries(fields[i], key)
    requires forall j | 0 <= j < i :: !Carries(fields[j], key)
    ensures LookupFields(fields, key) == KbToBytes(fields[i].value.value)
  {
    if i > 0 {
      var rest := fields[1..];
      assert rest[i - 1] == fields[i];
      forall j | 0 <= j < i - 1 ensures !Carries(rest[j], key) {
        assert rest[j] == fields[j + 1];
      }
      LookupFirstMatch(rest, key, i - 1);
    }
  }

  /** Every line of `lines`, parsed. */
  function ParseLines(lines: seq<string>): (fields: seq<Option<Field>>)
    ensures |fields| == |lines|
    ensures forall k | 0 <= k < |lines| :: fields[k] == ParseLine(lines[k])
  {
    seq(|lines|, k requires 0 <= k < |lines| => ParseLine(lines[k]))
  }

  /** Some line of `text` is a field named `key`. */
  ghost predicate NamesField(text: string, key: string)
  {
    var lines := Split(text, '\n');
    exists k | 0 <= k < |lines| :: Carries(ParseLine(lines[k]), key)
  }

  /** The value of field `key` in the (already trimmed) meminfo text, or
      `None` when the text is absent or no line decides it. */
  function Lookup(content: Option<string>, key: string): (r: Option<int>)
    // no file, no value
    ensures content.None? ==> r.None?
    // a value is a whole number of kibibytes
    ensures r.Some? ==> r.value % 1024 == 0
  {
    match content
    case None => None
    case Some(text) => LookupFields(ParseLines(Split(text, '\n')), key)
  }

  /** A value is only ever read from a line of the file naming `key`. */
  lemma LookupNamesField(content: Option<string>, key: string)
    requires Lookup(content, key).Some?
    ensures content.Some? && NamesField(content.value, key)
  {
    var lines := Split(content.value, '\n');
    var fields := ParseLines(lines);
    LookupFieldsCarried(fields, key);
    var k :| 0 <= k < |fields| && Carries(fields[k], key);
    assert Carries(ParseLine(lines[k]), key);
  }

  /** Looking a field up in text assembled from newline-free lines is the
      same as scanning those lines. */
  lemma LookupJoinedLines(lines: seq<string>, key: string)
    requires |lines| >= 1
    requires forall k | 0 <= k < |lines| :: '\n' !in lines[k]
    ensures Lookup(Some(Join(lines, '\n')), key) == LookupFields(ParseLines(lines), key)
  {
    SplitJoin(lines, '\n');
  }

  lemma TrimmableHasNoColon(pad: string)
    requires AllTrimmable(pad)
    ensures ':' !in pad
  {
  }

  /** A rendered `<n> kB` value is already trimmed and free of colons. */
  lemma RenderedValueShape(n: int)
    ensures IsTrimmed(ShowInt(n) + " " + KiloBytes)
    ensures ':' !in ShowInt(n) + " " + KiloBytes
  {
    var t := ShowInt(n);
    var v := t + " " + KiloBytes;
    ShowIntRoundTrip(n);
    NumericHasNoSeparators(t);
    assert v[0] == t[0] && v[|v| - 1] == 'B';
    assert IsDigit(t[0]) || t[0] == '-';
  }

  /** A line rendered as `<key>:<padding><n> kB` is read back as the field
      `key` with value `<n> kB`, whatever whitespace pads the value. */
  lemma RenderedLineParses(key: string, pad: string, n: int)
    requires ':' !in key && IsTrimmed(key)
    requires AllTrimmable(pad)
    ensures ParseLine(key + ":" + pad + ShowInt(n) + " " + KiloBytes)
         == Some(Field(key, ShowInt(n) + " " + KiloBytes))
  {
    var v := ShowInt(n) + " " + KiloBytes;
    RenderedValueShape(n);
    TrimmableHasNoColon(pad);
    assert key + ":" + pad + ShowInt(n) + " " + KiloBytes == key + [':'] + (pad + v);
    SplitTwo(key, ':', pad + v);
    TrimTrimmed(key);
    TrimLeading(pad, v);
  }

  /** Meminfo text whose first `key` line reads `<key>: <n> kB` yields
      `n * 1024` for that key, whatever comes before or after it. */
  lemma RenderedFieldFound(lines: seq<string>, i: nat, key: string, pad: string, n: int)
    requires i < |lines|
    requires forall k | 0 <= k < |lines| :: '\n' !in lines[k]
    requires ':' !in key && IsTrimmed(key) && AllTrimmable(pad)
    requires lines[i] == key + ":" + pad + ShowInt(n) + " " + KiloBytes
    requires forall j | 0 <= j < i :: !Carries(ParseLine(lines[j]), key)
    ensures Lookup(Some(Join(lines, '\n')), key) == Some(n * 1024)
  {
    RenderedLineParses(key, pad, n);
    KbRoundTrip(n);
    LookupFirstMatch(ParseLines(lines), key, i);
    LookupJoinedLines(lines, key);
  }
}
