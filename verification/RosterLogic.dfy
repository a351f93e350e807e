/** The award roster preview: reading a row, resolving its institution, and the two-pass
    duplicate detection. */
module RosterLogic {
  import opened ReviewTypes
  import opened Text

  datatype AwardLevel = SchoolAward | UniversitySystemAward

  datatype Mapping = Mapping(
    studentCode: string, fullName: string, className: Option<string>, institution: Option<string>)

  datatype Institution = Institution(
    id: Id, code: Option<string>, name: string, shortName: Option<string>, aliases: seq<string>)

  datatype User = User(id: Id, studentCode: Option<string>, workspaceId: Option<Id>)

  /** `normalize` stands for the diacritics-insensitive `normalizeText`. */
  datatype Context = Context(
    level: AwardLevel, issuer: Institution, institutions: seq<Institution>, users: seq<User>,
    normalize: string -> string)

  /** `Other` is a number, boolean or tagged date: its `String(cell)`, and the text a clean reads. */
  datatype Cell = Null | Text(text: string) | Other(display: string, content: string)

  type SourceRow = seq<Cell>

  /** A field that is absent keeps the cell; a nullable field may also be corrected to null. */
  datatype Correction = Correction(
    studentCode: Option<string>, fullName: Option<string>,
    className: Option<Option<string>>, institutionText: Option<Option<string>>)

  const NO_CORRECTION := Correction(None, None, None, None)

  datatype Canonical = Canonical(
    studentCode: Option<string>, fullName: Option<string>, className: Option<string>, institutionText: Option<string>)

  datatype RowStatus = Valid | Invalid | Duplicate | Conflict

  datatype MatchStatus = Matched | Unmatched | MatchConflict

  datatype RowError = StudentCodeRequired | StudentCodeMustBeText | FullNameRequired | InstitutionUnresolved

  datatype PreviewRow = PreviewRow(
    sourceRow: nat, fields: Canonical, institutionId: Option<Id>, matchStatus: MatchStatus, matchedUser: Option<Id>,
    original: Canonical, isCorrected: bool, status: RowStatus, errors: seq<RowError>)

  datatype Summary = Summary(
    total: nat, valid: nat, invalid: nat, duplicate: nat, conflict: nat, matched: nat, unmatched: nat)

  datatype Preview = Preview(rows: seq<PreviewRow>, summary: Summary)

  /** What a preview is computed from, besides the context. */
  datatype Sheet = Sheet(
    columns: seq<string>, sourceRows: seq<SourceRow>, mapping: Mapping, corrections: map<string, Correction>)

  // ---------- One row ----------

  function IndexOf(columns: seq<string>, column: string): (k: Option<nat>)
    ensures k.Some? <==> column in columns
    ensures k.Some? ==> k.value < |columns| && columns[k.value] == column && column !in columns[..k.value]
  {
    if columns == [] then None
    else if columns[0] == column then Some(0)
    else
      var rest := IndexOf(columns[1..], column);
      if rest.Some? then
        assert columns[..rest.value + 1] == [columns[0]] + columns[1..][..rest.value];
        Some(rest.value + 1)
      else None
  }

  /** None stands for a column that is not mapped, not there, or beyond the end of the row. */
  function ValueAt(columns: seq<string>, row: SourceRow, column: Option<string>): Option<Cell> {
    if !Truthy(column) then None
    else
      var k := IndexOf(columns, column.value);
      if k.Some? && k.value < |row| then Some(row[k.value]) else None
  }

  function CleanText(text: Option<string>): Option<string> {
    if text.None? then None else NonEmpty(Trim(text.value))
  }

  function Clean(cell: Option<Cell>): Option<string> {
    if cell.None? || cell.value.Null? then None
    else CleanText(Some(if cell.value.Text? then cell.value.text else cell.value.content))
  }

  predicate BlankCell(cell: Cell) {
    match cell
    case Null => true
    case Text(text) => Trim(text) == ""
    case Other(display, _) => Trim(display) == ""
  }

  predicate BlankRow(row: SourceRow) {
    forall i :: 0 <= i < |row| ==> BlankCell(row[i])
  }

  function Names(institution: Institution): seq<string> {
    (if Truthy(institution.code) then [institution.code.value] else [])
    + (if institution.name != "" then [institution.name] else [])
    + (if Truthy(institution.shortName) then [institution.shortName.value] else [])
    + institution.aliases
  }

  predicate InstitutionMatches(normalize: string -> string, value: string, institution: Institution) {
    var key := normalize(value);
    key != "" && exists name :: name in Names(institution) && name != "" && normalize(name) == key
  }

  function MatchingIds(ctx: Context, text: string): set<Id> {
    set i | 0 <= i < |ctx.institutions| && InstitutionMatches(ctx.normalize, text, ctx.institutions[i])
      :: ctx.institutions[i].id
  }

  /** The only element of a one-element set. */
  function TheElement<T>(s: set<T>): (x: T)
    requires |s| == 1
    ensures s == {x}
  {
    var x :| x in s;
    assert |s - {x}| == 0;
    x
  }

  function ResolveInstitution(ctx: Context, mapping: Mapping, text: Option<string>): Option<Id> {
    if ctx.level.SchoolAward? then
      if !Truthy(mapping.institution) then Some(ctx.issuer.id)
      else if Truthy(text) && InstitutionMatches(ctx.normalize, text.value, ctx.issuer) then Some(ctx.issuer.id)
      else None
    else if !Truthy(mapping.institution) || !Truthy(text) then None
    else
      var ids := MatchingIds(ctx, text.value);
      if |ids| == 1 then Some(TheElement(ids)) else None
  }

  function FindUser(users: seq<User>, institution: Option<Id>, studentCode: Option<string>): Option<Id> {
    if users == [] then None
    else if users[0].workspaceId == institution && users[0].studentCode == studentCode then Some(users[0].id)
    else FindUser(users[1..], institution, studentCode)
  }

  function CorrectionAt(sheet: Sheet, sourceRow: nat): Correction {
    var key := Decimal(sourceRow);
    if key in sheet.corrections then sheet.corrections[key] else NO_CORRECTION
  }

  function OriginalFields(sheet: Sheet, source: SourceRow): Canonical {
    Canonical(Clean(ValueAt(sheet.columns, source, Some(sheet.mapping.studentCode))),
              Clean(ValueAt(sheet.columns, source, Some(sheet.mapping.fullName))),
              Clean(ValueAt(sheet.columns, source, sheet.mapping.className)),
              Clean(ValueAt(sheet.columns, source, sheet.mapping.institution)))
  }

  /** The cell of the student code may not be read as text, so a code is never guessed from a number. */
  predicate NonTextCode(cell: Option<Cell>) { cell.Some? && cell.value.Other? }

  /** The fields of a row: each as corrected, or else as read. */
  function CorrectedFields(sheet: Sheet, source: SourceRow, sourceRow: nat): Canonical {
    var codeCell := ValueAt(sheet.columns, source, Some(sheet.mapping.studentCode));
    var original, c := OriginalFields(sheet, source), CorrectionAt(sheet, sourceRow);
    Canonical(if c.studentCode.Some? then CleanText(c.studentCode)
              else if codeCell.Some? && codeCell.value.Text? then original.studentCode else None,
              if c.fullName.Some? then CleanText(c.fullName) else original.fullName,
              if c.className.Some? then CleanText(c.className.value) else original.className,
              if c.institutionText.Some? then CleanText(c.institutionText.value) else original.institutionText)
  }

  predicate CodeIsNotText(sheet: Sheet, source: SourceRow, sourceRow: nat) {
    CorrectionAt(sheet, sourceRow).studentCode.None?
    && NonTextCode(ValueAt(sheet.columns, source, Some(sheet.mapping.studentCode)))
  }

  function BuildRow(sheet: Sheet, ctx: Context, source: SourceRow, sourceRow: nat): PreviewRow {
    var fields, nonText := CorrectedFields(sheet, source, sourceRow), CodeIsNotText(sheet, source, sourceRow);
    var institutionId := ResolveInstitution(ctx, sheet.mapping, fields.institutionText);
    var fieldErrors := (if fields.studentCode.None? && !nonText then [StudentCodeRequired] else [])
                       + (if nonText then [StudentCodeMustBeText] else [])
                       + (if fields.fullName.None? then [FullNameRequired] else []);
    var errors := fieldErrors + (if !Truthy(institutionId) then [InstitutionUnresolved] else []);
    var status := if fieldErrors != [] then Invalid else if !Truthy(institutionId) then Conflict else Valid;
    var matched := if status.Valid? then FindUser(ctx.users, institutionId, fields.studentCode) else None;
    var matchStatus := if matched.Some? then Matched else if !Truthy(institutionId) then MatchConflict else Unmatched;
    PreviewRow(sourceRow, fields, institutionId, matchStatus, matched, OriginalFields(sheet, source),
               CorrectionAt(sheet, sourceRow) != NO_CORRECTION, status, errors)
  }

  // ---------- The whole sheet ----------

  /** Every row that is not blank, numbered as in the file, whose first line is the header. */
  function RowsFrom(sheet: Sheet, ctx: Context, i: nat): seq<PreviewRow>
    requires i <= |sheet.sourceRows|
    decreases |sheet.sourceRows| - i
  {
    if i == |sheet.sourceRows| then []
    else (if BlankRow(sheet.sourceRows[i]) then [] else [BuildRow(sheet, ctx, sheet.sourceRows[i], i + 2)])
         + RowsFrom(sheet, ctx, i + 1)
  }

  function BaseRows(sheet: Sheet, ctx: Context): seq<PreviewRow> { RowsFrom(sheet, ctx, 0) }

  predicate Counted(row: PreviewRow) {
    row.status.Valid? && Truthy(row.fields.studentCode) && Truthy(row.institutionId)
  }

  function Key(row: PreviewRow): string
    requires Counted(row)
  {
    row.institutionId.value + ['\0'] + row.fields.studentCode.value
  }

  function KeyCount(rows: seq<PreviewRow>, key: string): nat {
    if rows == [] then 0
    else KeyCount(rows[..|rows| - 1], key)
         + (if Counted(rows[|rows| - 1]) && Key(rows[|rows| - 1]) == key then 1 else 0)
  }

  function Marked(row: PreviewRow, rows: seq<PreviewRow>): PreviewRow {
    if Counted(row) && KeyCount(rows, Key(row)) > 1 then row.(status := Duplicate) else row
  }

  function MarkDuplicates(rows: seq<PreviewRow>): (marked: seq<PreviewRow>)
    ensures |marked| == |rows|
  {
    seq(|rows|, i requires 0 <= i < |rows| => Marked(rows[i], rows))
  }

  function CountStatus(rows: seq<PreviewRow>, status: RowStatus): nat {
    if rows == [] then 0
    else CountStatus(rows[..|rows| - 1], status) + (if rows[|rows| - 1].status == status then 1 else 0)
  }

  function CountMatch(rows: seq<PreviewRow>, status: MatchStatus): nat {
    if rows == [] then 0
    else CountMatch(rows[..|rows| - 1], status) + (if rows[|rows| - 1].matchStatus == status then 1 else 0)
  }

  function Summarize(rows: seq<PreviewRow>): Summary {
    Summary(|rows|, CountStatus(rows, Valid), CountStatus(rows, Invalid), CountStatus(rows, Duplicate),
            CountStatus(rows, Conflict), CountMatch(rows, Matched), CountMatch(rows, Unmatched))
  }

  function BuildPreview(sheet: Sheet, ctx: Context): Preview {
    var rows := MarkDuplicates(BaseRows(sheet, ctx));
    Preview(rows, Summarize(rows))
  }

  /** The preview as it is computed: rows are collected, keys counted in one pass over a map, and the
      status of repeated keys overwritten in a second. */
  method ComputePreview(sheet: Sheet, ctx: Context) returns (preview: Preview)
    ensures preview == BuildPreview(sheet, ctx)
  {
    var rows := CollectRows(sheet, ctx);
    var counts := CountKeys(rows);
    var marked := OverwriteRepeated(rows, counts);
    var summary := Tally(marked);
    preview := Preview(marked, summary);
  }

  /** A row pushes its errors one after the other. */
  method CompileRow(sheet: Sheet, ctx: Context, source: SourceRow, sourceRow: nat) returns (row: PreviewRow)
    ensures row == BuildRow(sheet, ctx, source, sourceRow)
  {
    hide ResolveInstitution, FindUser, OriginalFields, CorrectionAt, CorrectedFields, CodeIsNotText;
    var errors: seq<RowError> := [];
    var fields, nonText := CorrectedFields(sheet, source, sourceRow), CodeIsNotText(sheet, source, sourceRow);
    if fields.studentCode.None? && !nonText {
      errors := errors + [StudentCodeRequired];
    }
    if nonText {
      errors := errors + [StudentCodeMustBeText];
    }
    if fields.fullName.None? {
      errors := errors + [FullNameRequired];
    }
    var invalid := errors != [];
    var institutionId := ResolveInstitution(ctx, sheet.mapping, fields.institutionText);
    var matchStatus := Unmatched;
    if !Truthy(institutionId) {
      errors := errors + [InstitutionUnresolved];
      matchStatus := MatchConflict;
    }
    var status := if invalid then Invalid else if !Truthy(institutionId) then Conflict else Valid;
    var matchedUser := if status.Valid? then FindUser(ctx.users, institutionId, fields.studentCode) else None;
    if matchedUser.Some? {
      matchStatus := Matched;
    }
    row := PreviewRow(sourceRow, fields, institutionId, matchStatus, matchedUser, OriginalFields(sheet, source),
                      CorrectionAt(sheet, sourceRow) != NO_CORRECTION, status, errors);
  }

  method CollectRows(sheet: Sheet, ctx: Context) returns (rows: seq<PreviewRow>)
    ensures rows == BaseRows(sheet, ctx)
  {
    hide BuildRow;
    rows := [];
    for i := 0 to |sheet.sourceRows|
      invariant BaseRows(sheet, ctx) == rows + RowsFrom(sheet, ctx, i)
    {
      ghost var before, rest := rows, RowsFrom(sheet, ctx, i + 1);
      if BlankRow(sheet.sourceRows[i]) {
        assert RowsFrom(sheet, ctx, i) == rest;
      } else {
        var row := CompileRow(sheet, ctx, sheet.sourceRows[i], i + 2);
        assert RowsFrom(sheet, ctx, i) == [row] + rest;
        rows := rows + [row];
        assert before + ([row] + rest) == rows + rest;
      }
    }
  }

  method CountKeys(rows: seq<PreviewRow>) returns (counts: map<string, nat>)
    ensures forall key :: KeyCount(rows, key) == if key in counts then counts[key] else 0
  {
    counts := map[];
    for i := 0 to |rows|
      invariant forall key :: KeyCount(rows[..i], key) == if key in counts then counts[key] else 0
    {
      assert rows[..i + 1][..i] == rows[..i];
      if Counted(rows[i]) {
        var key := Key(rows[i]);
        counts := counts[key := (if key in counts then counts[key] else 0) + 1];
      }
    }
    assert rows[..|rows|] == rows;
  }

  method OverwriteRepeated(rows: seq<PreviewRow>, counts: map<string, nat>) returns (marked: seq<PreviewRow>)
    requires forall key :: KeyCount(rows, key) == if key in counts then counts[key] else 0
    ensures marked == MarkDuplicates(rows)
  {
    marked := rows;
    for i := 0 to |rows|
      invariant |marked| == |rows|
      invariant forall k :: 0 <= k < i ==> marked[k] == Marked(rows[k], rows)
      invariant forall k :: i <= k < |rows| ==> marked[k] == rows[k]
    {
      if Counted(marked[i]) {
        var key := Key(marked[i]);
        if key in counts && counts[key] > 1 {
          marked := marked[i := marked[i].(status := Duplicate)];
        }
      }
    }
  }

  method Tally(rows: seq<PreviewRow>) returns (summary: Summary)
    ensures summary == Summarize(rows)
  {
    summary := Summary(|rows|, 0, 0, 0, 0, 0, 0);
    for i := 0 to |rows|
      invariant summary == Summarize(rows[..i]).(total := |rows|)
    {
      assert rows[..i + 1][..i] == rows[..i];
      match rows[i].status {
        case Valid => summary := summary.(valid := summary.valid + 1);
        case Invalid => summary := summary.(invalid := summary.invalid + 1);
        case Duplicate => summary := summary.(duplicate := summary.duplicate + 1);
        case Conflict => summary := summary.(conflict := summary.conflict + 1);
      }
      match rows[i].matchStatus {
        case Matched => summary := summary.(matched := summary.matched + 1);
        case Unmatched => summary := summary.(unmatched := summary.unmatched + 1);
        case MatchConflict =>
      }
    }
    assert rows[..|rows|] == rows;
  }

  // ---------- Duplicate detection is exact ----------

  predicate NulFree(s: string) { '\0' !in s }

  /** Workspace ids contain no NUL character. */
  predicate NulFreeInstitutions(rows: seq<PreviewRow>) {
    forall i :: 0 <= i < |rows| && rows[i].institutionId.Some? ==> NulFree(rows[i].institutionId.value)
  }

  /** Two rows, each valid on its own, name the same student of the same institution. */
  predicate SameRecipient(a: PreviewRow, b: PreviewRow) {
    a.status.Valid? && b.status.Valid?
    && a.institutionId == b.institutionId && a.fields.studentCode == b.fields.studentCode
  }

  lemma JoinInjective(a: string, b: string, c: string, d: string)
    requires NulFree(a) && NulFree(c) && a + ['\0'] + b == c + ['\0'] + d
    ensures a == c && b == d
  {
    var s, t := a + ['\0'] + b, c + ['\0'] + d;
    assert s[|a|] == '\0' && t[|c|] == '\0';
    assert forall i :: 0 <= i < |a| ==> s[i] == a[i];
    assert forall i :: 0 <= i < |c| ==> t[i] == c[i];
    assert |a| == |c|;
    assert a == s[..|a|] == t[..|c|] == c;
    assert b == s[|a| + 1..] == d;
  }

  /** A row valid on its own always has the two parts of the key. */
  predicate WellBuilt(row: PreviewRow) { row.status.Valid? ==> Counted(row) }

  lemma BuildRowWellBuilt(sheet: Sheet, ctx: Context, source: SourceRow, sourceRow: nat)
    ensures var row := BuildRow(sheet, ctx, source, sourceRow);
            WellBuilt(row) && !row.status.Duplicate? && row.sourceRow == sourceRow
  {
  }

  /** A row of the preview from line i on: built from the line its number names. */
  predicate BuiltFrom(sheet: Sheet, ctx: Context, i: nat, row: PreviewRow) {
    && i + 2 <= row.sourceRow < |sheet.sourceRows| + 2
    && !BlankRow(sheet.sourceRows[row.sourceRow - 2])
    && row == BuildRow(sheet, ctx, sheet.sourceRows[row.sourceRow - 2], row.sourceRow)
  }

  lemma {:induction false} RowsAreBuilt(sheet: Sheet, ctx: Context, i: nat)
    requires i <= |sheet.sourceRows|
    ensures forall row :: row in RowsFrom(sheet, ctx, i) ==> BuiltFrom(sheet, ctx, i, row)
    decreases |sheet.sourceRows| - i
  {
    hide BuildRow;
    if i < |sheet.sourceRows| {
      RowsAreBuilt(sheet, ctx, i + 1);
      BuildRowWellBuilt(sheet, ctx, sheet.sourceRows[i], i + 2);
      forall row | row in RowsFrom(sheet, ctx, i) ensures BuiltFrom(sheet, ctx, i, row) {
        if row in RowsFrom(sheet, ctx, i + 1) {
          assert BuiltFrom(sheet, ctx, i + 1, row);
        } else {
          assert row == BuildRow(sheet, ctx, sheet.sourceRows[i], i + 2);
        }
      }
    }
  }

  predicate Increasing(rows: seq<PreviewRow>) {
    forall k, m :: 0 <= k < m < |rows| ==> rows[k].sourceRow < rows[m].sourceRow
  }

  /** Row numbers increase strictly, whatever blank rows were dropped in between. */
  lemma {:induction false} RowNumbersIncrease(sheet: Sheet, ctx: Context, i: nat)
    requires i <= |sheet.sourceRows|
    ensures Increasing(RowsFrom(sheet, ctx, i))
    decreases |sheet.sourceRows| - i
  {
    hide BuildRow, BlankRow;
    assert Increasing([]);
    hide Increasing;
    if i < |sheet.sourceRows| {
      RowNumbersIncrease(sheet, ctx, i + 1);
      var rest := RowsFrom(sheet, ctx, i + 1);
      if BlankRow(sheet.sourceRows[i]) {
        assert RowsFrom(sheet, ctx, i) == rest;
      } else {
        var row := BuildRow(sheet, ctx, sheet.sourceRows[i], i + 2);
        BuildRowWellBuilt(sheet, ctx, sheet.sourceRows[i], i + 2);
        RestIsLater(sheet, ctx, i);
        IncreasingCons(row, rest);
        assert RowsFrom(sheet, ctx, i) == [row] + rest;
      }
    }
  }

  lemma RestIsLater(sheet: Sheet, ctx: Context, i: nat)
    requires i < |sheet.sourceRows|
    ensures forall row :: row in RowsFrom(sheet, ctx, i + 1) ==> row.sourceRow > i + 2
  {
    hide BuildRow, BlankRow, RowsFrom;
    RowsAreBuilt(sheet, ctx, i + 1);
    forall row | row in RowsFrom(sheet, ctx, i + 1) ensures row.sourceRow > i + 2 {
      assert BuiltFrom(sheet, ctx, i + 1, row);
    }
  }

  lemma IncreasingCons(row: PreviewRow, rest: seq<PreviewRow>)
    requires Increasing(rest) && forall later :: later in rest ==> later.sourceRow > row.sourceRow
    ensures Increasing([row] + rest)
  {
  }

  /** Rows as first built: each judged on its own, before any is marked as a duplicate. */
  predicate OnTheirOwn(rows: seq<PreviewRow>) {
    forall k :: 0 <= k < |rows| ==> WellBuilt(rows[k]) && !rows[k].status.Duplicate?
  }

  lemma BuiltRowsStandOnTheirOwn(sheet: Sheet, ctx: Context)
    ensures OnTheirOwn(BaseRows(sheet, ctx))
  {
    hide BuildRow;
    RowsAreBuilt(sheet, ctx, 0);
    forall k | 0 <= k < |BaseRows(sheet, ctx)|
      ensures WellBuilt(BaseRows(sheet, ctx)[k]) && !BaseRows(sheet, ctx)[k].status.Duplicate?
    {
      var row := BaseRows(sheet, ctx)[k];
      assert row in RowsFrom(sheet, ctx, 0);
      BuildRowWellBuilt(sheet, ctx, sheet.sourceRows[row.sourceRow - 2], row.sourceRow);
    }
  }

  lemma RestIsListed(sheet: Sheet, ctx: Context, i: nat, row: PreviewRow)
    requires i < |sheet.sourceRows| && row in RowsFrom(sheet, ctx, i + 1)
    ensures row in RowsFrom(sheet, ctx, i)
  {
    hide BuildRow, BlankRow;
    var rest := RowsFrom(sheet, ctx, i + 1);
    assert RowsFrom(sheet, ctx, i) == rest || RowsFrom(sheet, ctx, i)[1..] == rest;
  }

  lemma FirstIsListed(sheet: Sheet, ctx: Context, i: nat)
    requires i < |sheet.sourceRows| && !BlankRow(sheet.sourceRows[i])
    ensures BuildRow(sheet, ctx, sheet.sourceRows[i], i + 2) in RowsFrom(sheet, ctx, i)
  {
    hide BuildRow, BlankRow;
  }

  /** No line that is not blank is lost. */
  lemma {:induction false} EveryLineHasARow(sheet: Sheet, ctx: Context, i: nat, j: nat)
    requires i <= j < |sheet.sourceRows| && !BlankRow(sheet.sourceRows[j])
    ensures BuildRow(sheet, ctx, sheet.sourceRows[j], j + 2) in RowsFrom(sheet, ctx, i)
    decreases |sheet.sourceRows| - i
  {
    hide RowsFrom, BuildRow, BlankRow;
    if i == j {
      FirstIsListed(sheet, ctx, i);
    } else {
      EveryLineHasARow(sheet, ctx, i + 1, j);
      RestIsListed(sheet, ctx, i, BuildRow(sheet, ctx, sheet.sourceRows[j], j + 2));
    }
  }

  lemma {:induction false} KeyCountFinds(rows: seq<PreviewRow>, key: string)
    ensures KeyCount(rows, key) > 0 <==> exists m :: 0 <= m < |rows| && Counted(rows[m]) && Key(rows[m]) == key
  {
    if rows != [] {
      var init := rows[..|rows| - 1];
      KeyCountFinds(init, key);
      if m :| 0 <= m < |init| && Counted(init[m]) && Key(init[m]) == key {
        assert rows[m] == init[m];
      }
    }
  }

  /** A key held by row k is counted more than once exactly when another row holds it. */
  lemma {:induction false} KeyCountFindsAnother(rows: seq<PreviewRow>, k: nat)
    requires k < |rows| && Counted(rows[k])
    ensures KeyCount(rows, Key(rows[k])) > 1
            <==> exists m :: 0 <= m < |rows| && m != k && Counted(rows[m]) && Key(rows[m]) == Key(rows[k])
  {
    var last := |rows| - 1;
    var init, key := rows[..last], Key(rows[k]);
    KeyCountFinds(init, key);
    if k == last {
      if m :| 0 <= m < last && Counted(init[m]) && Key(init[m]) == key { assert rows[m] == init[m]; }
    } else {
      assert init[k] == rows[k];
      KeyCountFindsAnother(init, k);
      if m :| 0 <= m < last && m != k && Counted(init[m]) && Key(init[m]) == key { assert rows[m] == init[m]; }
    }
  }

  /** Another row, valid on its own, names the same student of the same institution. */
  ghost predicate HasTwin(rows: seq<PreviewRow>, k: nat)
    requires k < |rows|
  {
    exists m :: 0 <= m < |rows| && m != k && SameRecipient(rows[m], rows[k])
  }

  /** A row ends DUPLICATE exactly when it is valid on its own and has a twin that is; nothing else about
      any row is touched. */
  lemma DuplicateIff(rows: seq<PreviewRow>, k: nat)
    requires OnTheirOwn(rows) && NulFreeInstitutions(rows) && k < |rows|
    ensures MarkDuplicates(rows)[k].status.Duplicate? <==> HasTwin(rows, k)
    ensures MarkDuplicates(rows)[k] == rows[k].(status := if HasTwin(rows, k) then Duplicate else rows[k].status)
  {
    if Counted(rows[k]) {
      KeyCountFindsAnother(rows, k);
      if m :| 0 <= m < |rows| && m != k && Counted(rows[m]) && Key(rows[m]) == Key(rows[k]) {
        JoinInjective(rows[m].institutionId.value, rows[m].fields.studentCode.value,
                      rows[k].institutionId.value, rows[k].fields.studentCode.value);
        assert SameRecipient(rows[m], rows[k]);
      }
      if m :| 0 <= m < |rows| && m != k && SameRecipient(rows[m], rows[k]) {
        assert Counted(rows[m]) && Key(rows[m]) == Key(rows[k]);
      }
    }
  }

  /** The rows left VALID name pairwise distinct students, and source rows stay in file order. */
  lemma ValidRowsAreDistinct(sheet: Sheet, ctx: Context, i: nat, j: nat)
    requires NulFreeInstitutions(BaseRows(sheet, ctx))
    requires i < j < |BuildPreview(sheet, ctx).rows|
    ensures BuildPreview(sheet, ctx).rows[i].sourceRow < BuildPreview(sheet, ctx).rows[j].sourceRow
    ensures !SameRecipient(BuildPreview(sheet, ctx).rows[i], BuildPreview(sheet, ctx).rows[j])
  {
    hide BuildRow;
    RowNumbersIncrease(sheet, ctx, 0);
    BuiltRowsStandOnTheirOwn(sheet, ctx);
    var base := BaseRows(sheet, ctx);
    DuplicateIff(base, i);
    DuplicateIff(base, j);
    assert SameRecipient(base[i], base[j]) ==> HasTwin(base, j);
  }

  /** Every row has one of the four statuses, so the four counts add up to the total. */
  lemma {:induction false} StatusCountsAddUp(rows: seq<PreviewRow>)
    ensures var s := Summarize(rows);
            s.valid + s.invalid + s.duplicate + s.conflict == s.total && s.matched + s.unmatched <= s.total
    ensures Summarize(rows).valid == |rows| <==> forall i :: 0 <= i < |rows| ==> rows[i].status.Valid?
  {
    if rows != [] {
      var init := rows[..|rows| - 1];
      StatusCountsAddUp(init);
      assert forall i :: 0 <= i < |init| ==> init[i] == rows[i];
    }
  }

  // ---------- A correction is local ----------

  /** The two correction maps may differ at row r only. */
  predicate AgreeExceptAt(a: map<string, Correction>, b: map<string, Correction>, r: nat) {
    forall key :: key in a.Keys + b.Keys && key != Decimal(r) ==> key in a && key in b && a[key] == b[key]
  }

  lemma BuildRowReadsOwnCorrection(sheet: Sheet, other: map<string, Correction>, ctx: Context, source: SourceRow,
                                   n: nat)
    ensures var a, b := BuildRow(sheet, ctx, source, n), BuildRow(sheet.(corrections := other), ctx, source, n);
            a.sourceRow == b.sourceRow
            && (CorrectionAt(sheet, n) == CorrectionAt(sheet.(corrections := other), n) ==> a == b)
  {
  }

  /** Row by row the same, except for what row r says. */
  predicate AlikeExceptAt(a: seq<PreviewRow>, b: seq<PreviewRow>, r: nat) {
    && |a| == |b|
    && forall k :: 0 <= k < |a| ==> a[k].sourceRow == b[k].sourceRow && (a[k].sourceRow != r ==> a[k] == b[k])
  }

  lemma AlikeCons(x: PreviewRow, a: seq<PreviewRow>, y: PreviewRow, b: seq<PreviewRow>, r: nat)
    requires AlikeExceptAt(a, b, r) && x.sourceRow == y.sourceRow && (x.sourceRow != r ==> x == y)
    ensures AlikeExceptAt([x] + a, [y] + b, r)
  {
  }

  lemma SameCorrection(sheet: Sheet, other: map<string, Correction>, r: nat, n: nat)
    requires AgreeExceptAt(sheet.corrections, other, r) && n != r
    ensures CorrectionAt(sheet, n) == CorrectionAt(sheet.(corrections := other), n)
  {
    if Decimal(n) == Decimal(r) {
      DecimalInjective(n, r);
    }
  }

  lemma {:induction false} OtherRowsUnchanged(
    sheet: Sheet, other: map<string, Correction>, ctx: Context, r: nat, i: nat)
    requires AgreeExceptAt(sheet.corrections, other, r) && i <= |sheet.sourceRows|
    ensures AlikeExceptAt(RowsFrom(sheet, ctx, i), RowsFrom(sheet.(corrections := other), ctx, i), r)
    decreases |sheet.sourceRows| - i
  {
    hide BuildRow, BlankRow, AgreeExceptAt, CorrectionAt;
    if i < |sheet.sourceRows| {
      OtherRowsUnchanged(sheet, other, ctx, r, i + 1);
      if !BlankRow(sheet.sourceRows[i]) {
        hide AlikeExceptAt;
        BuildRowReadsOwnCorrection(sheet, other, ctx, sheet.sourceRows[i], i + 2);
        BuildRowWellBuilt(sheet, ctx, sheet.sourceRows[i], i + 2);
        if i + 2 != r {
          SameCorrection(sheet, other, r, i + 2);
        }
        var s := sheet.(corrections := other);
        AlikeCons(BuildRow(sheet, ctx, sheet.sourceRows[i], i + 2), RowsFrom(sheet, ctx, i + 1),
                  BuildRow(s, ctx, s.sourceRows[i], i + 2), RowsFrom(s, ctx, i + 1), r);
      }
    }
  }

  /** Changing the correction of row r keeps the list of rows and every field of the other rows. The
      status of another row changes, if at all, between VALID and DUPLICATE, and only when row r named
      the same student before the change or names it afterwards. */
  lemma CorrectionIsLocal(sheet: Sheet, other: map<string, Correction>, ctx: Context, r: nat, k: nat)
    requires AgreeExceptAt(sheet.corrections, other, r)
    requires k < |BaseRows(sheet, ctx)| && BaseRows(sheet, ctx)[k].sourceRow != r
    requires NulFreeInstitutions(BaseRows(sheet, ctx))
    requires NulFreeInstitutions(BaseRows(sheet.(corrections := other), ctx))
    ensures var baseA, baseB := BaseRows(sheet, ctx), BaseRows(sheet.(corrections := other), ctx);
            var a, b := BuildPreview(sheet, ctx).rows, BuildPreview(sheet.(corrections := other), ctx).rows;
            && |a| == |b| && b[k] == a[k].(status := b[k].status)
            && (a[k].status != b[k].status ==>
                  && {a[k].status, b[k].status} == {Valid, Duplicate}
                  && exists m :: 0 <= m < |baseA| && baseA[m].sourceRow == r
                                 && (SameRecipient(baseA[m], baseA[k]) || SameRecipient(baseB[m], baseB[k])))
  {
    var s := sheet.(corrections := other);
    hide BuildRow;
    OtherRowsUnchanged(sheet, other, ctx, r, 0);
    BuiltRowsStandOnTheirOwn(sheet, ctx);
    BuiltRowsStandOnTheirOwn(s, ctx);
    DuplicateIff(BaseRows(sheet, ctx), k);
    DuplicateIff(BaseRows(s, ctx), k);
    var baseA, baseB := BaseRows(sheet, ctx), BaseRows(s, ctx);
    var a, b := BuildPreview(sheet, ctx).rows, BuildPreview(s, ctx).rows;
    assert baseA[k] == baseB[k];
    if a[k].status.Duplicate? && !b[k].status.Duplicate? {
      var m :| 0 <= m < |baseA| && m != k && SameRecipient(baseA[m], baseA[k]);
      assert baseA[m].sourceRow == r;
    } else if b[k].status.Duplicate? && !a[k].status.Duplicate? {
      var m :| 0 <= m < |baseB| && m != k && SameRecipient(baseB[m], baseB[k]);
      assert baseA[m].sourceRow == r;
    }
  }

  // ---------- Mappings and ids ----------

  function SelectedColumns(mapping: Mapping): seq<string> {
    (if mapping.studentCode != "" then [mapping.studentCode] else [])
    + (if mapping.fullName != "" then [mapping.fullName] else [])
    + (if Truthy(mapping.className) then [mapping.className.value] else [])
    + (if Truthy(mapping.institution) then [mapping.institution.value] else [])
  }

  /** `validateAwardRosterMapping`. */
  predicate ValidMapping(columns: seq<string>, mapping: Mapping) {
    var selected := SelectedColumns(mapping);
    && mapping.studentCode != "" && mapping.fullName != ""
    && (forall i, j :: 0 <= i < j < |selected| ==> selected[i] != selected[j])
    && mapping.studentCode in columns && mapping.fullName in columns
    && (forall i :: 0 <= i < |selected| ==> selected[i] in columns)
  }

  /** Workspace ids are UUIDs; all the key needs of them is that they contain no NUL. */
  predicate NulFreeContext(ctx: Context) {
    NulFree(ctx.issuer.id) && forall i :: 0 <= i < |ctx.institutions| ==> NulFree(ctx.institutions[i].id)
  }

  lemma ResolvedIdsAreNulFree(ctx: Context, mapping: Mapping, text: Option<string>)
    requires NulFreeContext(ctx)
    ensures var id := ResolveInstitution(ctx, mapping, text); id.Some? ==> NulFree(id.value)
  {
    var id := ResolveInstitution(ctx, mapping, text);
    if id.Some? && ctx.level.UniversitySystemAward? {
      assert id.value in MatchingIds(ctx, text.value);
    }
  }

  lemma RowIdsAreNulFree(sheet: Sheet, ctx: Context)
    requires NulFreeContext(ctx)
    ensures NulFreeInstitutions(BaseRows(sheet, ctx))
  {
    RowsAreBuilt(sheet, ctx, 0);
    forall k | 0 <= k < |BaseRows(sheet, ctx)| && BaseRows(sheet, ctx)[k].institutionId.Some?
      ensures NulFree(BaseRows(sheet, ctx)[k].institutionId.value)
    {
      hide BuildRow;
      var row := BaseRows(sheet, ctx)[k];
      assert row in RowsFrom(sheet, ctx, 0);
      BuiltRowIsNulFree(sheet, ctx, sheet.sourceRows[row.sourceRow - 2], row.sourceRow);
    }
  }

  lemma BuiltRowIsNulFree(sheet: Sheet, ctx: Context, source: SourceRow, n: nat)
    requires NulFreeContext(ctx)
    ensures var id := BuildRow(sheet, ctx, source, n).institutionId; id.Some? ==> NulFree(id.value)
  {
    ResolvedIdsAreNulFree(ctx, sheet.mapping, BuildRow(sheet, ctx, source, n).fields.institutionText);
  }
}
