/**
 * scripts/add_common_names_to_solvent.py: a common name found in
 * parentheses in a row's `old_name` is appended to its "Solvent" cell,
 * unless that cell already contains '('. The table is an array of rows
 * written in place. Character classes are the ASCII ones of the Text
 * module.
 */
module CommonNamesSolvent {

  import opened Common
  import opened Text
  import opened CsvCleaning
  import opened SolventNames

  // ---------------------------------------------------- extract_common_name

  /** `re.search(r'\(([^)]+)\)', s)` matches at `p`: '(' there, then a
      non-empty run without ')' up to the first ')' after it. */
  predicate GroupAt(s: string, p: nat)
  {
    p < |s| && s[p] == '(' && p + 1 < FirstClose(s, p + 1) < |s|
  }

  /** The leftmost match at or after `p`, as the bounds of its group. */
  function FirstGroup(s: string, p: nat): (r: Option<(nat, nat)>)
    ensures r.Some? ==> exists q :: p <= q && GroupAt(s, q) && r.value == (q + 1, FirstClose(s, q + 1))
    decreases |s| - p
  {
    if p >= |s| then None
    else if GroupAt(s, p) then Some((p + 1, FirstClose(s, p + 1)))
    else FirstGroup(s, p + 1)
  }

  /** The group found is the leftmost one; no group means no position
      matches. */
  lemma {:induction false} FirstGroupMeaning(s: string, p: nat)
    ensures FirstGroup(s, p).Some? ==> GroupAt(s, FirstGroup(s, p).value.0 - 1)
    ensures FirstGroup(s, p).Some? ==> forall q :: p <= q < FirstGroup(s, p).value.0 - 1 ==> !GroupAt(s, q)
    ensures FirstGroup(s, p).None? ==> forall q :: p <= q ==> !GroupAt(s, q)
    decreases |s| - p
  {
    if p < |s| && !GroupAt(s, p) {
      FirstGroupMeaning(s, p + 1);
    }
  }

  /** Characters counted as alphabetic by the script: letters, whitespace
      and '-'. */
  function AlphaCount(s: string): (n: nat)
    ensures n <= |s|
  {
    if |s| == 0 then 0 else AlphaCount(s[1..]) + (if IsAlpha(s[0]) || IsSpace(s[0]) || s[0] == '-' then 1 else 0)
  }

  function DigitCount(s: string): (n: nat)
    ensures n <= |s|
  {
    if |s| == 0 then 0 else DigitCount(s[1..]) + (if IsDigit(s[0]) then 1 else 0)
  }

  predicate HasLetter(s: string)
  {
    exists i :: 0 <= i < |s| && IsAlpha(s[i])
  }

  /** The content looks like a common name rather than a formula. */
  predicate LooksLikeName(content: string)
  {
    AlphaCount(content) > DigitCount(content) && HasLetter(content)
  }

  /** `extract_common_name`: NaN (None here) and names without a match give
      None; otherwise the stripped content of the first group, if it looks
      like a name. */
  function ExtractCommonName(oldName: Option<string>): Option<string>
  {
    match oldName
    case None => None
    case Some(s) =>
      match FirstGroup(s, 0)
      case None => None
      case Some(g) =>
        var content := Strip(s[g.0..g.1]);
        if LooksLikeName(content) then Some(content) else None
  }

  /** The match `re.search` finds: the leftmost position that matches. */
  predicate LeftmostGroup(s: string, p: nat)
  {
    GroupAt(s, p) && forall q :: 0 <= q < p ==> !GroupAt(s, q)
  }

  /** A name is returned only when the leftmost "(…)" group's stripped
      content looks like a name, and it is that content; later groups are
      never inspected. Conversely, a leftmost group whose stripped content
      looks like a name is returned. A returned name is never empty. */
  lemma ExtractMeaning(s: string)
    ensures ExtractCommonName(Some(s)).Some? ==>
      exists p: nat :: LeftmostGroup(s, p)
        && ExtractCommonName(Some(s)).value == Strip(s[p + 1..FirstClose(s, p + 1)])
    ensures forall p: nat :: LeftmostGroup(s, p) && LooksLikeName(Strip(s[p + 1..FirstClose(s, p + 1)])) ==>
      ExtractCommonName(Some(s)) == Some(Strip(s[p + 1..FirstClose(s, p + 1)]))
    ensures ExtractCommonName(Some(s)).Some? ==>
      LooksLikeName(ExtractCommonName(Some(s)).value) && ExtractCommonName(Some(s)).value != []
  {
    ExtractFound(s);
    ExtractLeftmost(s);
  }

  lemma ExtractFound(s: string)
    ensures ExtractCommonName(Some(s)).Some? ==>
      exists p: nat :: LeftmostGroup(s, p)
        && ExtractCommonName(Some(s)).value == Strip(s[p + 1..FirstClose(s, p + 1)])
  {
    FirstGroupMeaning(s, 0);
    if FirstGroup(s, 0).Some? {
      var p := FirstGroup(s, 0).value.0 - 1;
      assert LeftmostGroup(s, p);
    }
  }

  lemma ExtractLeftmost(s: string)
    ensures forall p: nat :: LeftmostGroup(s, p) && LooksLikeName(Strip(s[p + 1..FirstClose(s, p + 1)])) ==>
      ExtractCommonName(Some(s)) == Some(Strip(s[p + 1..FirstClose(s, p + 1)]))
  {
    forall p: nat | LeftmostGroup(s, p) && LooksLikeName(Strip(s[p + 1..FirstClose(s, p + 1)]))
      ensures ExtractCommonName(Some(s)) == Some(Strip(s[p + 1..FirstClose(s, p + 1)]))
    {
      FirstGroupAt(s, p);
    }
  }

  /** The leftmost match is the one `FirstGroup` finds. */
  lemma FirstGroupAt(s: string, p: nat)
    requires LeftmostGroup(s, p)
    ensures FirstGroup(s, 0) == Some((p + 1, FirstClose(s, p + 1)))
  {
    FirstGroupMeaning(s, 0);
    assert FirstGroup(s, 0).Some?;
    var q := FirstGroup(s, 0).value.0 - 1;
    LeftmostUnique(s, p);
    assert LeftmostGroup(s, q);
  }

  /** At most one position is the leftmost match. */
  lemma LeftmostUnique(s: string, p: nat)
    requires LeftmostGroup(s, p)
    ensures forall p': nat :: LeftmostGroup(s, p') ==> p' == p
  {
  }

  /** NaN and a name without '(' give None. */
  lemma NoParenNoName(s: string)
    ensures (forall p :: 0 <= p < |s| ==> s[p] != '(') ==> ExtractCommonName(Some(s)).None?
    ensures ExtractCommonName(None).None?
  {
    FirstGroupMeaning(s, 0);
  }

  // -------------------------------------------------- update_solvent_column

  datatype Row = Row(solvent: Cell, oldName: Option<string>)

  /** The row is rewritten: a common name is found and `str(solvent)` has
      no '('. */
  predicate Rewritten(r: Row)
  {
    ExtractCommonName(r.oldName).Some? && !HasChar(Shown(r.solvent), '(')
  }

  function NewSolvent(solvent: Cell, name: string): string
  {
    Shown(solvent) + " (" + name + ")"
  }

  function UpdatedRow(r: Row): Row
  {
    if Rewritten(r) then r.(solvent := Text(NewSolvent(r.solvent, ExtractCommonName(r.oldName).value))) else r
  }

  /** `update_solvent_column`: the rows rewritten in place; the count of
      rewritten rows is returned. */
  method UpdateSolventColumn(rows: array<Row>) returns (updatedCount: nat)
    modifies rows
    ensures rows[..] == MapSeq(old(rows[..]), UpdatedRow)
    ensures updatedCount == Count(old(rows[..]), Rewritten)
  {
    ghost var col := rows[..];
    updatedCount := 0;
    for idx := 0 to rows.Length
      invariant rows[..] == MapSeq(col[..idx], UpdatedRow) + col[idx..]
      invariant updatedCount == Count(col[..idx], Rewritten)
    {
      MapSeqStep(col, idx, UpdatedRow, Rewritten);
      var row, rewritten := UpdateOne(rows[idx]);
      rows[idx] := row;
      if rewritten {
        updatedCount := updatedCount + 1;
      }
    }
    assert col[..rows.Length] == col;
  }

  /** The body of the row loop. */
  method UpdateOne(r: Row) returns (r': Row, rewritten: bool)
    ensures r' == UpdatedRow(r) && rewritten == Rewritten(r)
  {
    r', rewritten := r, false;
    var commonName := ExtractCommonName(r.oldName);
    if commonName.Some? {
      if !HasChar(Shown(r.solvent), '(') {
        r' := r.(solvent := Text(NewSolvent(r.solvent, commonName.value)));
        rewritten := true;
      }
    }
  }

  /** A rewritten row's solvent is the old text, a space and the name in
      parentheses, so it contains '('; a row whose solvent already
      contains '(' is left alone; nothing but the solvent changes. */
  lemma UpdateMeaning(r: Row)
    ensures UpdatedRow(r).oldName == r.oldName
    ensures HasChar(Shown(r.solvent), '(') ==> UpdatedRow(r) == r
    ensures Rewritten(r) ==> HasChar(Shown(UpdatedRow(r).solvent), '(')
    ensures Rewritten(r) <==> UpdatedRow(r) != r
  {
    if Rewritten(r) {
      var t := NewSolvent(r.solvent, ExtractCommonName(r.oldName).value);
      assert t[|Shown(r.solvent)| + 1] == '(';
    }
  }

  /** Running the update a second time changes no row and counts none. */
  lemma {:induction false} UpdateTwice(rows: seq<Row>)
    ensures MapSeq(MapSeq(rows, UpdatedRow), UpdatedRow) == MapSeq(rows, UpdatedRow)
    ensures Count(MapSeq(rows, UpdatedRow), Rewritten) == 0
  {
    if |rows| > 0 {
      var init := rows[..|rows| - 1];
      var once := MapSeq(rows, UpdatedRow);
      UpdateTwice(init);
      UpdateMeaning(rows[|rows| - 1]);
      UpdateMeaning(UpdatedRow(rows[|rows| - 1]));
      assert once[..|once| - 1] == MapSeq(init, UpdatedRow);
    }
  }
}
