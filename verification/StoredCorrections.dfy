/** Row corrections as they are stored in the job's JSON, and read back. */
module StoredCorrections {
  import opened ReviewTypes
  import opened Text
  import opened RosterLogic

  datatype StoredValue = JNull | JString(text: string) | JObject(fields: map<string, StoredValue>) | JOther

  function NullableJson(value: Option<string>): StoredValue {
    if value.Some? then JString(value.value) else JNull
  }

  function StoreCorrection(c: Correction): StoredValue {
    var fields: map<string, StoredValue> :=
      (if c.studentCode.Some? then map["studentCode" := JString(c.studentCode.value)] else map[])
      + (if c.fullName.Some? then map["fullName" := JString(c.fullName.value)] else map[])
      + (if c.className.Some? then map["className" := NullableJson(c.className.value)] else map[])
      + (if c.institutionText.Some? then map["institutionText" := NullableJson(c.institutionText.value)] else map[]);
    JObject(fields)
  }

  function StoreCorrections(corrections: map<string, Correction>): map<string, StoredValue> {
    map key | key in corrections :: StoreCorrection(corrections[key])
  }

  function ReadText(fields: map<string, StoredValue>, name: string): Option<string> {
    if name in fields && fields[name].JString? then Some(fields[name].text) else None
  }

  function ReadNullable(fields: map<string, StoredValue>, name: string): Option<Option<string>> {
    if name !in fields then None
    else if fields[name].JNull? then Some(None)
    else if fields[name].JString? then Some(Some(fields[name].text))
    else None
  }

  function ReadCorrection(value: StoredValue): Correction {
    if !value.JObject? then NO_CORRECTION
    else Correction(ReadText(value.fields, "studentCode"), ReadText(value.fields, "fullName"),
                    ReadNullable(value.fields, "className"), ReadNullable(value.fields, "institutionText"))
  }

  /** A key of the stored object that names a source row. */
  predicate RowKey(key: string) { AllDigits(key) && DigitsValue(key) >= 2 }

  function ParseCorrections(source: map<string, StoredValue>): map<string, Correction> {
    map key | key in source && RowKey(key) && ReadCorrection(source[key]) != NO_CORRECTION
      :: ReadCorrection(source[key])
  }

  /** `parseRowCorrections` goes through the entries and fills a record with those it can read. */
  method ParseRowCorrections(source: map<string, StoredValue>) returns (parsed: map<string, Correction>)
    ensures parsed == ParseCorrections(source)
  {
    parsed := map[];
    var left := source.Keys;
    while left != {}
      invariant left <= source.Keys
      invariant parsed == ParseCorrections(map key | key in source && key !in left :: source[key])
      decreases left
    {
      var key :| key in left;
      left := left - {key};
      var correction := ReadCorrection(source[key]);
      if RowKey(key) && correction != NO_CORRECTION {
        parsed := parsed[key := correction];
      }
    }
    assert source == map key | key in source && key !in left :: source[key];
  }

  /** The correction maps the API can store: rows of a sheet start at 2, and every correction has a field. */
  predicate Storable(corrections: map<string, Correction>) {
    forall key :: key in corrections ==> RowKey(key) && corrections[key] != NO_CORRECTION
  }

  lemma CorrectionRoundTrip(c: Correction)
    ensures ReadCorrection(StoreCorrection(c)) == c
  {
    var fields := StoreCorrection(c).fields;
    assert "studentCode"[0] == 's' && "fullName"[0] == 'f' && "className"[0] == 'c' && "institutionText"[0] == 'i';
    assert "studentCode" in fields <==> c.studentCode.Some?;
    assert "fullName" in fields <==> c.fullName.Some?;
    assert "className" in fields <==> c.className.Some?;
    assert "institutionText" in fields <==> c.institutionText.Some?;
  }

  /** The entries that are read back are those the API could have stored, each as it was. */
  lemma ParsedEntry(corrections: map<string, Correction>, key: string)
    ensures var parsed := ParseCorrections(StoreCorrections(corrections));
            && (key in parsed <==> key in corrections && RowKey(key) && corrections[key] != NO_CORRECTION)
            && (key in parsed ==> parsed[key] == corrections[key])
  {
    if key in corrections {
      CorrectionRoundTrip(corrections[key]);
    }
    hide ReadCorrection, StoreCorrection, RowKey;
  }

  /** Reading back is the identity exactly on the maps the API can store. */
  lemma ParseIsIdentityIffStorable(corrections: map<string, Correction>)
    ensures ParseCorrections(StoreCorrections(corrections)) == corrections <==> Storable(corrections)
  {
    hide ParseCorrections, StoreCorrections, RowKey;
    var parsed := ParseCorrections(StoreCorrections(corrections));
    forall key
      ensures key in parsed <==> key in corrections && RowKey(key) && corrections[key] != NO_CORRECTION
      ensures key in parsed ==> parsed[key] == corrections[key]
    {
      ParsedEntry(corrections, key);
    }
    if Storable(corrections) {
      assert parsed.Keys == corrections.Keys;
    }
  }

  /** Whatever the JSON holds, what is read from it is storable. */
  lemma ParsedIsStorable(source: map<string, StoredValue>)
    ensures Storable(ParseCorrections(source))
  {
  }

  /** `{...prior, ...change}`. */
  function Merge(prior: Correction, change: Correction): Correction {
    Correction(if change.studentCode.Some? then change.studentCode else prior.studentCode,
               if change.fullName.Some? then change.fullName else prior.fullName,
               if change.className.Some? then change.className else prior.className,
               if change.institutionText.Some? then change.institutionText else prior.institutionText)
  }
}
