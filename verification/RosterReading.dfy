/** How the preview reads a line of the roster file, told by its cells, the mapping and the row's correction. */
module RosterReading {
  import opened ReviewTypes
  import opened Text
  import opened Sequences
  import opened RosterLogic

  // ---------- Cells ----------

  /** The cell under the first column of that name, if the line is that long. */
  ghost predicate IsUnder(columns: seq<string>, line: SourceRow, column: Option<string>, cell: Cell) {
    && column != None && column.value != ""
    && exists k :: 0 <= k < |columns| && k < |line| && columns[k] == column.value && line[k] == cell
                   && forall j :: 0 <= j < k ==> columns[j] != column.value
  }

  lemma CellIff(columns: seq<string>, line: SourceRow, column: Option<string>, cell: Cell)
    ensures ValueAt(columns, line, column) == Some(cell) <==> IsUnder(columns, line, column, cell)
  {
    if column != None {
      var k := IndexOf(columns, column.value);
      if k.Some? {
        forall j | 0 <= j < k.value ensures columns[j] != column.value {
          assert columns[j] in columns[..k.value];
        }
      }
    }
  }

  function ContentOf(cell: Cell): string {
    match cell
    case Null => ""
    case Text(text) => text
    case Other(_, content) => content
  }

  function ShownAs(cell: Cell): string {
    match cell
    case Null => ""
    case Text(text) => text
    case Other(display, _) => display
  }

  /** A line is dropped exactly if nothing but blanks shows in any of its cells. */
  lemma DroppedIff(line: SourceRow)
    ensures BlankRow(line) <==> forall i :: 0 <= i < |line| ==> Trim(ShownAs(line[i])) == ""
  {
    assert Trim("") == "";
    assert forall cell :: BlankCell(cell) <==> Trim(ShownAs(cell)) == "";
  }

  /** What is said, trimmed, if anything is. */
  function Said(text: string): Option<string> { if Trim(text) == "" then None else Some(Trim(text)) }

  /** The field says what the cell of its column says, and nothing without one. */
  ghost predicate Reads(columns: seq<string>, line: SourceRow, column: Option<string>, field: Option<string>) {
    && (forall cell :: IsUnder(columns, line, column, cell) ==> field == Said(ContentOf(cell)))
    && ((forall cell :: !IsUnder(columns, line, column, cell)) ==> field == None)
  }

  lemma CleanReads(columns: seq<string>, line: SourceRow, column: Option<string>)
    ensures Reads(columns, line, column, Clean(ValueAt(columns, line, column)))
  {
    hide ValueAt, IsUnder;
    forall cell ensures ValueAt(columns, line, column) == Some(cell) <==> IsUnder(columns, line, column, cell) {
      CellIff(columns, line, column, cell);
    }
    assert Trim("") == "";
  }

  // ---------- Rows ----------

  /** The correction of the row, if there is one. */
  function CorrectionOf(sheet: Sheet, n: nat): Correction {
    if Decimal(n) in sheet.corrections then sheet.corrections[Decimal(n)] else Correction(None, None, None, None)
  }

  function SaidIf(text: Option<string>): Option<string> {
    match text
    case Some(t) => Said(t)
    case None => None
  }

  /** A code that is a number or a date is not read. */
  ghost predicate ReadsCode(columns: seq<string>, line: SourceRow, column: string, code: Option<string>) {
    && (forall t :: IsUnder(columns, line, Some(column), Cell.Text(t)) ==> code == Said(t))
    && ((forall t :: !IsUnder(columns, line, Some(column), Cell.Text(t))) ==> code == None)
  }

  ghost predicate NumberAsCode(columns: seq<string>, line: SourceRow, column: string) {
    exists shown, content :: IsUnder(columns, line, Some(column), Other(shown, content))
  }

  lemma CodeReads(sheet: Sheet, line: SourceRow, n: nat)
    requires CorrectionOf(sheet, n).studentCode == None
    ensures ReadsCode(sheet.columns, line, sheet.mapping.studentCode, CorrectedFields(sheet, line, n).studentCode)
    ensures CodeIsNotText(sheet, line, n) <==> NumberAsCode(sheet.columns, line, sheet.mapping.studentCode)
  {
    var column := Some(sheet.mapping.studentCode);
    hide ValueAt, IsUnder;
    forall cell
      ensures ValueAt(sheet.columns, line, column) == Some(cell) <==> IsUnder(sheet.columns, line, column, cell)
    {
      CellIff(sheet.columns, line, column, cell);
    }
    var cell := ValueAt(sheet.columns, line, column);
    if cell.Some? && cell.value.Other? {
      assert IsUnder(sheet.columns, line, column, Other(cell.value.display, cell.value.content));
    }
  }

  /** Every field says what it is corrected to, or else what its cell says; the original fields say what the cells do. A
      code is not read from a number or a date. */
  lemma FieldsSay(sheet: Sheet, ctx: Context, line: SourceRow, n: nat)
    ensures var row, c := BuildRow(sheet, ctx, line, n), CorrectionOf(sheet, n);
            var m, columns := sheet.mapping, sheet.columns;
            && row.sourceRow == n && (row.isCorrected <==> c != Correction(None, None, None, None))
            && (if c.studentCode != None then row.fields.studentCode == SaidIf(c.studentCode)
                else ReadsCode(columns, line, m.studentCode, row.fields.studentCode))
            && (if c.fullName != None then row.fields.fullName == SaidIf(c.fullName)
                else Reads(columns, line, Some(m.fullName), row.fields.fullName))
            && (if c.className != None then row.fields.className == SaidIf(c.className.value)
                else Reads(columns, line, m.className, row.fields.className))
            && (if c.institutionText != None then row.fields.institutionText == SaidIf(c.institutionText.value)
                else Reads(columns, line, m.institution, row.fields.institutionText))
            && Reads(columns, line, Some(m.studentCode), row.original.studentCode)
            && Reads(columns, line, Some(m.fullName), row.original.fullName)
            && Reads(columns, line, m.className, row.original.className)
            && Reads(columns, line, m.institution, row.original.institutionText)
  {
    var m, columns := sheet.mapping, sheet.columns;
    if CorrectionOf(sheet, n).studentCode == None {
      CodeReads(sheet, line, n);
    }
    CleanReads(columns, line, Some(m.studentCode));
    CleanReads(columns, line, Some(m.fullName));
    CleanReads(columns, line, m.className);
    CleanReads(columns, line, m.institution);
    assert CorrectionAt(sheet, n) == CorrectionOf(sheet, n);
    hide ValueAt, Clean, Reads, ReadsCode, CodeIsNotText, ResolveInstitution, FindUser;
  }

  ghost predicate NumberIsCode(sheet: Sheet, line: SourceRow, n: nat) {
    CorrectionOf(sheet, n).studentCode == None && NumberAsCode(sheet.columns, line, sheet.mapping.studentCode)
  }

  lemma NumberIsCodeIff(sheet: Sheet, line: SourceRow, n: nat)
    ensures NumberIsCode(sheet, line, n) <==> CodeIsNotText(sheet, line, n)
  {
    assert CorrectionAt(sheet, n) == CorrectionOf(sheet, n);
    if CorrectionOf(sheet, n).studentCode == None {
      CodeReads(sheet, line, n);
    }
  }

  predicate Unresolved(row: PreviewRow) { row.institutionId in {None, Some("")} }

  /** The errors say exactly what is missing or cannot be used, in this order, and the institution is the one its text
      resolves to. */
  lemma ErrorsSay(sheet: Sheet, ctx: Context, line: SourceRow, n: nat)
    ensures var row := BuildRow(sheet, ctx, line, n);
            && row.institutionId == ResolveInstitution(ctx, sheet.mapping, row.fields.institutionText)
            && row.errors == (if NumberIsCode(sheet, line, n) then [StudentCodeMustBeText]
                              else if row.fields.studentCode == None then [StudentCodeRequired] else [])
                             + (if row.fields.fullName == None then [FullNameRequired] else [])
                             + (if Unresolved(row) then [InstitutionUnresolved] else [])
  {
    NumberIsCodeIff(sheet, line, n);
    hide ResolveInstitution, FindUser, OriginalFields, CorrectedFields, CorrectionAt, CodeIsNotText, NumberIsCode;
    var row := BuildRow(sheet, ctx, line, n);
    var nonText, missing := CodeIsNotText(sheet, line, n), row.fields.studentCode.None?;
    var required := if missing && !nonText then [StudentCodeRequired] else [];
    var mustBeText := if nonText then [StudentCodeMustBeText] else [];
    var name := if row.fields.fullName.None? then [FullNameRequired] else [];
    var institution := if !Truthy(row.institutionId) then [InstitutionUnresolved] else [];
    assert row.errors == required + mustBeText + name + institution;
    assert required + mustBeText == if nonText then mustBeText else required;
  }

  /** The errors decide the status. The user of a row without errors is the first one with its code at the
      institution. */
  lemma StatusSays(sheet: Sheet, ctx: Context, line: SourceRow, n: nat)
    ensures var row := BuildRow(sheet, ctx, line, n);
            && row.status == (if row.errors == [] then Valid
                              else if row.errors == [InstitutionUnresolved] then Conflict else Invalid)
            && row.matchedUser == (if row.errors != [] then None
                                   else FindUser(ctx.users, row.institutionId, row.fields.studentCode))
            && row.matchStatus == (if row.matchedUser != None then Matched
                                   else if Unresolved(row) then MatchConflict else Unmatched)
  {
    hide ResolveInstitution, FindUser, OriginalFields, CorrectedFields, CorrectionAt, CodeIsNotText;
    var row := BuildRow(sheet, ctx, line, n);
    assert row.errors == [InstitutionUnresolved] ==> row.errors[0] == InstitutionUnresolved;
    assert row.status == Conflict ==> row.errors == [] + [InstitutionUnresolved];
  }

  // ---------- Institutions and users ----------

  /** An institution goes by its code, its name, its short name and its aliases. */
  predicate GoesBy(institution: Institution, name: string) {
    name != "" && (institution.code == Some(name) || institution.name == name || institution.shortName == Some(name)
                   || name in institution.aliases)
  }

  lemma MatchesIff(normalize: string -> string, value: string, institution: Institution)
    ensures InstitutionMatches(normalize, value, institution)
            <==> normalize(value) != ""
                 && exists name :: GoesBy(institution, name) && normalize(name) == normalize(value)
  {
    assert forall name :: GoesBy(institution, name) <==> name in Names(institution) && name != "";
  }

  /** The user a row is matched with is the first one at the institution with the code. */
  lemma {:induction false} FirstUserIff(users: seq<User>, institution: Option<Id>, code: Option<string>, id: Id)
    ensures FindUser(users, institution, code) == Some(id)
            <==> exists k :: 0 <= k < |users| && users[k] == User(id, code, institution)
                             && forall j :: 0 <= j < k ==>
                                  users[j].workspaceId != institution || users[j].studentCode != code
  {
    if users != [] {
      FirstUserIff(users[1..], institution, code, id);
      if k :| 0 <= k < |users| && users[k] == User(id, code, institution)
              && forall j :: 0 <= j < k ==> users[j].workspaceId != institution || users[j].studentCode != code {
        if k > 0 {
          assert users[1..][k - 1] == users[k];
          assert forall j :: 0 <= j < k - 1 ==> users[1..][j] == users[j + 1];
        }
      }
      if k :| 0 <= k < |users[1..]| && users[1..][k] == User(id, code, institution)
              && forall j :: 0 <= j < k ==>
                   users[1..][j].workspaceId != institution || users[1..][j].studentCode != code {
        if !(users[0].workspaceId == institution && users[0].studentCode == code) {
          assert users[k + 1] == User(id, code, institution);
          assert forall j :: 0 < j < k + 1 ==> users[j] == users[1..][j - 1];
        }
      }
    }
  }

  // ---------- Mapping and summary ----------

  /** A mapping is accepted exactly if code and name have a column, every mapped column is there, and no two are one. */
  lemma MappingIsValidIff(columns: seq<string>, m: Mapping)
    ensures ValidMapping(columns, m)
            <==>
            && m.studentCode != "" && m.studentCode in columns && m.fullName != "" && m.fullName in columns
            && m.studentCode != m.fullName
            && (m.className !in {None, Some("")} ==>
                  m.className.value in columns && m.className.value !in {m.studentCode, m.fullName})
            && (m.institution !in {None, Some("")} ==>
                  m.institution.value in columns && m.institution.value !in {m.studentCode, m.fullName}
                  && m.institution != m.className)
  {
    var named, placed := Truthy(m.className), Truthy(m.institution);
    if m.studentCode != "" && m.fullName != "" {
      var two := [m.studentCode, m.fullName];
      assert SelectedColumns(m)
          == if named && placed then [m.studentCode, m.fullName, m.className.value, m.institution.value]
             else if named then [m.studentCode, m.fullName, m.className.value]
             else if placed then [m.studentCode, m.fullName, m.institution.value] else two;
      hide SelectedColumns;
      var s := SelectedColumns(m);
      assert s[0] == m.studentCode && s[1] == m.fullName;
      if named {
        assert s[2] == m.className.value;
      }
      if placed {
        assert s[|s| - 1] == m.institution.value;
      }
    }
  }

  function With(status: RowStatus): PreviewRow -> bool { (row: PreviewRow) => row.status == status }

  function MatchedAs(status: MatchStatus): PreviewRow -> bool { (row: PreviewRow) => row.matchStatus == status }

  /** The summary counts the rows of each status, the matched ones and the unmatched ones. */
  lemma {:induction false} SummaryCounts(rows: seq<PreviewRow>)
    ensures Summarize(rows)
            == Summary(|rows|, Count(With(Valid), rows), Count(With(Invalid), rows), Count(With(Duplicate), rows),
                       Count(With(Conflict), rows), Count(MatchedAs(Matched), rows), Count(MatchedAs(Unmatched), rows))
  {
    if rows != [] {
      var init, last := rows[..|rows| - 1], rows[|rows| - 1];
      SummaryCounts(init);
      assert rows == init + [last];
      CountSnoc(With(Valid), init, last);
      CountSnoc(With(Invalid), init, last);
      CountSnoc(With(Duplicate), init, last);
      CountSnoc(With(Conflict), init, last);
      CountSnoc(MatchedAs(Matched), init, last);
      CountSnoc(MatchedAs(Unmatched), init, last);
      hide Count;
    }
  }
}
