/** What one row of the roster preview says. */
module RosterRows {
  import opened ReviewTypes
  import opened Text
  import opened RosterLogic

  // ---------- Institutions ----------

  /** An institution of the context the text may mean. */
  predicate Means(ctx: Context, text: string, id: Id) {
    exists i :: 0 <= i < |ctx.institutions| && ctx.institutions[i].id == id
                && InstitutionMatches(ctx.normalize, text, ctx.institutions[i])
  }

  /** For an award of the university system a text is resolved exactly if it means one institution and no
      other, whatever number of entries that institution has. */
  lemma ResolvedIff(ctx: Context, mapping: Mapping, text: Option<string>, id: Id)
    requires ctx.level.UniversitySystemAward?
    ensures ResolveInstitution(ctx, mapping, text) == Some(id)
            <==> Truthy(mapping.institution) && Truthy(text) && Means(ctx, text.value, id)
                 && forall other :: Means(ctx, text.value, other) ==> other == id
  {
    if Truthy(mapping.institution) && Truthy(text) {
      var ids := MatchingIds(ctx, text.value);
      assert forall x :: x in ids <==> Means(ctx, text.value, x);
      if Means(ctx, text.value, id) && forall other :: Means(ctx, text.value, other) ==> other == id {
        assert ids == {id};
      }
    }
  }

  /** For a school's own award the issuer is the only institution there is. */
  lemma SchoolAwardResolvesToIssuer(ctx: Context, mapping: Mapping, text: Option<string>)
    requires ctx.level.SchoolAward?
    ensures ResolveInstitution(ctx, mapping, text)
            == if Truthy(mapping.institution)
               && !(Truthy(text) && InstitutionMatches(ctx.normalize, text.value, ctx.issuer))
               then None else Some(ctx.issuer.id)
  {
  }

  // ---------- Statuses ----------

  predicate IsAt(u: User, institution: Option<Id>, code: Option<string>) {
    u.workspaceId == institution && u.studentCode == code
  }

  lemma {:induction false} FindUserIff(users: seq<User>, institution: Option<Id>, code: Option<string>)
    ensures FindUser(users, institution, code).Some? <==> exists u :: u in users && IsAt(u, institution, code)
    ensures FindUser(users, institution, code).Some? ==>
              exists u :: u in users && IsAt(u, institution, code) && u.id == FindUser(users, institution, code).value
  {
    if users != [] {
      FindUserIff(users[1..], institution, code);
      assert users[0] in users
             && (IsAt(users[0], institution, code) ==> FindUser(users, institution, code) == Some(users[0].id));
      assert forall u :: u in users <==> u == users[0] || u in users[1..];
    }
  }

  /** The errors tell the status: none for a valid row, the institution alone for a conflict. A valid row
      has a code, a name and an institution, and is matched exactly if a user has that code there. */
  lemma StatusFollowsErrors(sheet: Sheet, ctx: Context, source: SourceRow, n: nat)
    ensures var row := BuildRow(sheet, ctx, source, n);
            && (row.status.Valid? <==> row.errors == [])
            && (row.status.Conflict? <==> row.errors == [InstitutionUnresolved])
            && (row.matchStatus.MatchConflict? <==> InstitutionUnresolved in row.errors)
            && (row.status.Valid? ==>
                row.fields.studentCode.Some? && row.fields.fullName.Some? && Truthy(row.institutionId))
            && (row.matchStatus.Matched? <==> row.matchedUser.Some?)
            && (row.matchedUser.Some?
                <==> row.status.Valid?
                     && exists u :: u in ctx.users && IsAt(u, row.institutionId, row.fields.studentCode))
  {
    hide ResolveInstitution, FindUser, OriginalFields, CorrectionAt, CorrectedFields;
    var row := BuildRow(sheet, ctx, source, n);
    FindUserIff(ctx.users, row.institutionId, row.fields.studentCode);
    assert row.errors == [InstitutionUnresolved] ==> row.errors[0].InstitutionUnresolved?;
    assert row.status.Conflict? ==> row.errors == [] + [InstitutionUnresolved];
  }

  // ---------- A correction acts like an edit of the cell ----------

  function Typed(text: Option<string>): Option<Cell> { if text.Some? then Some(Cell.Text(text.value)) else None }

  function TypedOrEmptied(text: Option<Option<string>>): Option<Cell> {
    if text.None? then None else if text.value.Some? then Some(Cell.Text(text.value.value)) else Some(Cell.Null)
  }

  function Edit(columns: seq<string>, source: SourceRow, column: Option<string>,
                cell: Option<Cell>): (edited: SourceRow)
    requires |columns| <= |source|
    ensures |edited| == |source|
  {
    if cell.None? || !Truthy(column) || column.value !in columns then source
    else source[IndexOf(columns, column.value).value := cell.value]
  }

  /** A line shorter than the header has empty cells up to the header's end. */
  function Padded(columns: seq<string>, source: SourceRow): (padded: SourceRow)
    ensures |columns| <= |padded| && source <= padded
  {
    if |columns| <= |source| then source else source + seq(|columns| - |source|, _ => Cell.Null)
  }

  /** A missing cell reads like an empty one. */
  lemma PadReads(columns: seq<string>, source: SourceRow, column: Option<string>)
    ensures var was, now := ValueAt(columns, source, column), ValueAt(columns, Padded(columns, source), column);
            now == was || (was.None? && now == Some(Cell.Null))
  {
  }

  /** The line as it would read with the corrected cells typed in. */
  function Edited(sheet: Sheet, source: SourceRow, c: Correction): SourceRow
    requires |sheet.columns| <= |source|
  {
    var m := sheet.mapping;
    var a := Edit(sheet.columns, source, Some(m.studentCode), Typed(c.studentCode));
    var b := Edit(sheet.columns, a, Some(m.fullName), Typed(c.fullName));
    var d := Edit(sheet.columns, b, m.className, TypedOrEmptied(c.className));
    Edit(sheet.columns, d, m.institution, TypedOrEmptied(c.institutionText))
  }

  lemma EditReads(columns: seq<string>, source: SourceRow, column: Option<string>, cell: Option<Cell>,
                  other: Option<string>)
    requires |columns| <= |source|
    ensures ValueAt(columns, Edit(columns, source, column, cell), other)
            == if cell.Some? && Truthy(column) && column.value in columns && other == column then cell
               else ValueAt(columns, source, other)
  {
  }

  /** The fields with corrections of columns that are not mapped and so have no cell to type in. */
  function Filled(fields: Canonical, m: Mapping, c: Correction): Canonical {
    fields.(
      className := if c.className.Some? && !Truthy(m.className) then CleanText(c.className.value) else fields.className,
      institutionText :=
        if c.institutionText.Some? && !Truthy(m.institution) then CleanText(c.institutionText.value)
        else fields.institutionText)
  }

  /** With a valid mapping a corrected row says what the uncorrected row would say had the cells been typed that
      way. A field without a column is as corrected and decides nothing else. Only the original fields and the
      mark of the correction differ. */
  lemma CorrectionActsLikeAnEdit(sheet: Sheet, ctx: Context, source: SourceRow, n: nat)
    requires ValidMapping(sheet.columns, sheet.mapping)
    ensures var c, corrected := CorrectionAt(sheet, n), BuildRow(sheet, ctx, source, n);
            var line := Edited(sheet, Padded(sheet.columns, source), c);
            var typed := BuildRow(sheet.(corrections := map[]), ctx, line, n);
            corrected == typed.(fields := Filled(typed.fields, sheet.mapping, c), original := corrected.original,
                                isCorrected := corrected.isCorrected)
  {
    var c, m, line := CorrectionAt(sheet, n), sheet.mapping, Padded(sheet.columns, source);
    var typed := sheet.(corrections := map[]);
    FieldsLikeTyped(sheet, source, n);
    assert CorrectionAt(typed, n) == NO_CORRECTION;
    var edited := Edited(sheet, line, c);
    SameResolution(ctx, m, CorrectedFields(typed, edited, n).institutionText,
                   CorrectedFields(sheet, source, n).institutionText);
    hide CorrectedFields, CodeIsNotText, ResolveInstitution, FindUser, ValidMapping, CorrectionAt, Edited, Padded,
      OriginalFields;
  }

  lemma SameResolution(ctx: Context, m: Mapping, a: Option<string>, b: Option<string>)
    requires Truthy(m.institution) ==> a == b
    ensures ResolveInstitution(ctx, m, a) == ResolveInstitution(ctx, m, b)
  {
  }

  lemma FieldsLikeTyped(sheet: Sheet, source: SourceRow, n: nat)
    requires ValidMapping(sheet.columns, sheet.mapping)
    ensures var c, typed := CorrectionAt(sheet, n), sheet.(corrections := map[]);
            var line := Edited(sheet, Padded(sheet.columns, source), c);
            && CorrectedFields(sheet, source, n) == Filled(CorrectedFields(typed, line, n), sheet.mapping, c)
            && (CodeIsNotText(sheet, source, n) <==> CodeIsNotText(typed, line, n))
            && (Truthy(sheet.mapping.institution) ==>
                  CorrectedFields(sheet, source, n).institutionText == CorrectedFields(typed, line, n).institutionText)
  {
    var c, m, line := CorrectionAt(sheet, n), sheet.mapping, Padded(sheet.columns, source);
    MappedColumnsDiffer(sheet.columns, m);
    FieldReads(sheet, line, c, Some(m.studentCode));
    FieldReads(sheet, line, c, Some(m.fullName));
    FieldReads(sheet, line, c, m.className);
    FieldReads(sheet, line, c, m.institution);
    NothingReads(sheet, line, c);
    PadReads(sheet.columns, source, Some(m.studentCode));
    PadReads(sheet.columns, source, Some(m.fullName));
    PadReads(sheet.columns, source, m.className);
    PadReads(sheet.columns, source, m.institution);
    hide ValueAt, Edited, ValidMapping, CleanText, Padded;
  }

  lemma NothingReads(sheet: Sheet, source: SourceRow, c: Correction)
    requires |sheet.columns| <= |source|
    ensures forall column :: column in {sheet.mapping.className, sheet.mapping.institution} && !Truthy(column) ==>
              ValueAt(sheet.columns, source, column).None?
                && ValueAt(sheet.columns, Edited(sheet, source, c), column).None?
  {
  }

  lemma MappedColumnsDiffer(columns: seq<string>, m: Mapping)
    requires ValidMapping(columns, m)
    ensures m.studentCode != "" && m.fullName != "" && m.studentCode in columns && m.fullName in columns
    ensures m.studentCode != m.fullName
    ensures Truthy(m.className) ==> m.className.value in columns && m.className.value !in {m.studentCode, m.fullName}
    ensures Truthy(m.institution) ==>
              m.institution.value in columns && m.institution.value !in {m.studentCode, m.fullName}
    ensures Truthy(m.className) && Truthy(m.institution) ==> m.className != m.institution
  {
    var s := SelectedColumns(m);
    assert s[0] == m.studentCode && s[1] == m.fullName;
    if Truthy(m.className) {
      assert s[2] == m.className.value;
    }
    if Truthy(m.institution) {
      assert s[|s| - 1] == m.institution.value;
    }
  }

  lemma FieldReads(sheet: Sheet, source: SourceRow, c: Correction, column: Option<string>)
    requires ValidMapping(sheet.columns, sheet.mapping) && |sheet.columns| <= |source|
    ensures var m := sheet.mapping;
            ValueAt(sheet.columns, Edited(sheet, source, c), column)
            == if column == Some(m.studentCode) && c.studentCode.Some? then Typed(c.studentCode)
               else if column == Some(m.fullName) && c.fullName.Some? then Typed(c.fullName)
               else if Truthy(column) && column == m.className && c.className.Some? then TypedOrEmptied(c.className)
               else if Truthy(column) && column == m.institution && c.institutionText.Some?
                 then TypedOrEmptied(c.institutionText)
               else ValueAt(sheet.columns, source, column)
  {
    var m, columns := sheet.mapping, sheet.columns;
    var a := Edit(columns, source, Some(m.studentCode), Typed(c.studentCode));
    var b := Edit(columns, a, Some(m.fullName), Typed(c.fullName));
    var d := Edit(columns, b, m.className, TypedOrEmptied(c.className));
    MappedColumnsDiffer(columns, m);
    EditReads(columns, source, Some(m.studentCode), Typed(c.studentCode), column);
    EditReads(columns, a, Some(m.fullName), Typed(c.fullName), column);
    EditReads(columns, b, m.className, TypedOrEmptied(c.className), column);
    EditReads(columns, d, m.institution, TypedOrEmptied(c.institutionText), column);
    hide Edit, ValueAt, ValidMapping;
  }
}
