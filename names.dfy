/**
 * Solvent-name rules shared by the consolidation and common-name scripts:
 * the name cleaner of scripts/consolidate_solvent_csv.py and the base-name
 * extraction that both scripts/consolidate_solvent_csv.py and
 * scripts/add_common_names_from_other_sources.py define identically.
 */
module SolventNames {

  import opened Common
  import opened Text

  // ---------------------------------------------------- clean_solvent_name

  /** ™, ® and ©. */
  predicate IsMark(c: char)
  {
    c == '\U{2122}' || c == '\U{00AE}' || c == '\U{00A9}'
  }

  predicate NoMarks(s: string)
  {
    forall i :: 0 <= i < |s| ==> !IsMark(s[i])
  }

  /** `re.sub(r'[™®©]', '', s)`. */
  function RemoveMarks(s: string): (r: string)
    ensures NoMarks(r)
    ensures |r| <= |s|
    ensures NoMarks(s) ==> r == s
    ensures forall i :: 0 <= i < |r| ==> r[i] in s
  {
    if |s| == 0 then []
    else if IsMark(s[0]) then RemoveMarks(s[1..])
    else [s[0]] + RemoveMarks(s[1..])
  }

  /** Every whitespace character is a plain space and no two whitespace
      characters are adjacent. */
  predicate Collapsed(s: string)
  {
    forall i :: 0 <= i < |s| && IsSpace(s[i]) ==> s[i] == ' ' && (i + 1 < |s| ==> !IsSpace(s[i + 1]))
  }

  /** `re.sub(r'\s+', ' ', s)`: each maximal run of whitespace becomes one
      space. */
  function Collapse(s: string): (r: string)
    ensures Collapsed(r)
    ensures |s| > 0 <==> |r| > 0
    ensures |s| > 0 ==> (IsSpace(r[0]) <==> IsSpace(s[0]))
    decreases |s|
  {
    if |s| == 0 then []
    else if IsSpace(s[0]) then [' '] + Collapse(TrimStart(s[1..]))
    else [s[0]] + Collapse(s[1..])
  }

  /** Collapsing never introduces a trade mark. */
  lemma {:induction false} CollapseKeepsNoMarks(s: string)
    requires NoMarks(s)
    ensures NoMarks(Collapse(s))
    decreases |s|
  {
    if |s| > 0 {
      var rest := if IsSpace(s[0]) then TrimStart(s[1..]) else s[1..];
      assert rest == s[|s| - |rest|..];
      forall i | 0 <= i < |rest| ensures !IsMark(rest[i]) { assert rest[i] == s[|s| - |rest| + i]; }
      CollapseKeepsNoMarks(rest);
    }
  }

  /** A string that is already collapsed is its own collapse. */
  lemma {:induction false} CollapseOfCollapsed(s: string)
    requires Collapsed(s)
    ensures Collapse(s) == s
    decreases |s|
  {
    if |s| > 0 {
      var t := s[1..];
      assert Collapsed(t) by {
        forall i | 0 <= i < |t| && IsSpace(t[i]) ensures t[i] == ' ' && (i + 1 < |t| ==> !IsSpace(t[i + 1])) {
          assert t[i] == s[i + 1];
          if i + 1 < |t| { assert t[i + 1] == s[i + 2]; }
        }
      }
      if IsSpace(s[0]) {
        assert |t| > 0 ==> !IsSpace(t[0]);
        assert TrimStart(t) == t;
      }
      CollapseOfCollapsed(t);
    }
  }

  /** A slice of a collapsed, mark-free string is collapsed and mark-free. */
  lemma SliceKeepsShape(s: string, a: nat, b: nat)
    requires a <= b <= |s| && Collapsed(s) && NoMarks(s)
    ensures Collapsed(s[a..b]) && NoMarks(s[a..b])
  {
    forall i | 0 <= i < b - a && IsSpace(s[a..b][i])
      ensures s[a..b][i] == ' ' && (i + 1 < b - a ==> !IsSpace(s[a..b][i + 1]))
    {
      assert s[a..b][i] == s[a + i];
      if i + 1 < b - a { assert s[a..b][i + 1] == s[a + i + 1]; }
    }
    forall i | 0 <= i < b - a ensures !IsMark(s[a..b][i]) { assert s[a..b][i] == s[a + i]; }
  }

  /** `clean_solvent_name`: drop the trade marks, collapse whitespace runs,
      strip. */
  function CleanSolventName(name: string): string
  {
    Strip(Collapse(RemoveMarks(name)))
  }

  /** A cleaned name has no trade marks, only single plain spaces, no
      whitespace at its ends, and is no longer than the input. */
  lemma CleanSolventNameShape(name: string)
    ensures var r := CleanSolventName(name);
      NoMarks(r) && Collapsed(r) && IsStripped(r) && |r| <= |name|
  {
    var m := RemoveMarks(name);
    var c := Collapse(m);
    CollapseKeepsNoMarks(m);
    StripKeepsShape(c);
    CollapseLength(m);
  }

  lemma StripKeepsShape(c: string)
    requires Collapsed(c) && NoMarks(c)
    ensures Collapsed(Strip(c)) && NoMarks(Strip(c)) && IsStripped(Strip(c)) && |Strip(c)| <= |c|
  {
    StripIsSlice(c);
    SliceKeepsShape(c, LeadingSpaces(c), LeadingSpaces(c) + |Strip(c)|);
  }

  lemma StripIsSlice(c: string)
    ensures LeadingSpaces(c) + |Strip(c)| <= |c|
    ensures Strip(c) == c[LeadingSpaces(c)..LeadingSpaces(c) + |Strip(c)|]
    ensures IsStripped(Strip(c))
  {
  }

  lemma {:induction false} CollapseLength(s: string)
    ensures |Collapse(s)| <= |s|
    decreases |s|
  {
    if |s| > 0 {
      if IsSpace(s[0]) { CollapseLength(TrimStart(s[1..])); } else { CollapseLength(s[1..]); }
    }
  }

  /** Cleaning a cleaned name changes nothing. */
  lemma CleanSolventNameIdempotent(name: string)
    ensures CleanSolventName(CleanSolventName(name)) == CleanSolventName(name)
  {
    var r := CleanSolventName(name);
    CleanSolventNameShape(name);
    assert RemoveMarks(r) == r;
    CollapseOfCollapsed(r);
    StripOfStripped(r);
  }

  // ----------------------------------------------------- extract_base_name

  /** Position of the first ')' in `r` at or after `from`, or |r|. */
  function FirstClose(r: string, from: nat): (m: nat)
    requires from <= |r|
    ensures from <= m <= |r|
    ensures m < |r| ==> r[m] == ')'
    ensures forall i :: from <= i < m ==> r[i] != ')'
    decreases |r| - from
  {
    if from == |r| || r[from] == ')' then from else FirstClose(r, from + 1)
  }

  predicate AllSpace(s: string)
  {
    forall i :: 0 <= i < |s| ==> IsSpace(s[i])
  }

  /** `r` matches `\s*\([^)]+\)\s*$`: after leading whitespace comes '(',
      a non-empty run without ')', the first ')' and then only
      whitespace. */
  predicate ParenTail(r: string)
  {
    var j := LeadingSpaces(r);
    j < |r| && r[j] == '(' &&
    var m := FirstClose(r, j + 1);
    j + 1 < m < |r| && AllSpace(r[m + 1..])
  }

  /** The lazy group `^(.+?)` of the pattern: the shortest non-empty,
      newline-free prefix whose remainder satisfies `tail` (a parenthesised
      tail in `extract_base_name`). */
  function MatchFrom(s: string, k: nat, tail: string -> bool): (r: Option<nat>)
    requires 1 <= k
    ensures r.Some? ==> k <= r.value <= |s|
    decreases |s| - k
  {
    if k > |s| || s[k - 1] == '\n' then None
    else if tail(s[k..]) then Some(k)
    else MatchFrom(s, k + 1, tail)
  }

  /** A match found from `k` is followed by a tail, no earlier position
      from `k` on is, and no newline precedes it from `k - 1` on; no match
      means every tail from `k` on has a newline before it. */
  lemma {:induction false} MatchFromMeaning(s: string, k: nat, tail: string -> bool)
    requires 1 <= k
    ensures MatchFrom(s, k, tail).Some? ==> tail(s[MatchFrom(s, k, tail).value..])
    ensures MatchFrom(s, k, tail).Some? ==> forall i :: k <= i < MatchFrom(s, k, tail).value ==> !tail(s[i..])
    ensures MatchFrom(s, k, tail).Some? ==> forall i :: k - 1 <= i < MatchFrom(s, k, tail).value ==> s[i] != '\n'
    ensures MatchFrom(s, k, tail).None? ==>
      forall j :: k <= j <= |s| && tail(s[j..]) ==> exists i :: k - 1 <= i < j && s[i] == '\n'
    decreases |s| - k
  {
    if k > |s| || s[k - 1] == '\n' {
    } else if tail(s[k..]) {
    } else {
      MatchFromMeaning(s, k + 1, tail);
    }
  }

  /** `extract_base_name`: the stripped text before a trailing "(…)" group,
      when the pattern matches and that text is not blank; otherwise the
      name itself. */
  function ExtractBaseName(name: string): string
  {
    match MatchFrom(name, 1, ParenTail)
    case Some(k) => if Strip(name[..k]) != [] then Strip(name[..k]) else name
    case None => name
  }

  /** `r` splits as whitespace, '(' at `j`, a non-empty run without ')',
      ')' at `m`, whitespace. */
  predicate TailShape(r: string, j: nat, m: nat)
  {
    && j + 1 < m < |r|
    && AllSpace(r[..j]) && r[j] == '(' && r[m] == ')'
    && (forall i :: j < i < m ==> r[i] != ')')
    && AllSpace(r[m + 1..])
  }

  /** The tail matches exactly when it has that shape (the split is then
      the one the matcher finds). */
  lemma ParenTailIff(r: string)
    ensures ParenTail(r) <==> exists j: nat, m: nat :: TailShape(r, j, m)
  {
    if ParenTail(r) {
      ParenTailShape(r);
    }
    if exists j: nat, m: nat :: TailShape(r, j, m) {
      var j: nat, m: nat :| TailShape(r, j, m);
      ShapeParenTail(r, j, m);
    }
  }

  lemma ParenTailShape(r: string)
    requires ParenTail(r)
    ensures TailShape(r, LeadingSpaces(r), FirstClose(r, LeadingSpaces(r) + 1))
  {
    var j := LeadingSpaces(r);
    assert AllSpace(r[..j]) by {
      forall i | 0 <= i < j ensures IsSpace(r[..j][i]) { assert r[..j][i] == r[i]; }
    }
  }

  lemma ShapeParenTail(r: string, j: nat, m: nat)
    requires TailShape(r, j, m)
    ensures ParenTail(r) && j == LeadingSpaces(r) && m == FirstClose(r, j + 1)
  {
    assert j == LeadingSpaces(r);
    assert m == FirstClose(r, j + 1);
  }

  /** A changed name is the stripped, non-blank text before the shortest
      parenthesised tail; a name with no parenthesised tail after a
      non-empty, newline-free prefix is returned unchanged. */
  lemma BaseNameMeaning(name: string)
    ensures ExtractBaseName(name) != name ==>
      exists k :: 1 <= k <= |name| && ParenTail(name[k..]) && ExtractBaseName(name) == Strip(name[..k]) != []
        && (forall i :: 1 <= i < k ==> !ParenTail(name[i..]))
    ensures (forall k :: 1 <= k <= |name| ==> !ParenTail(name[k..])) ==> ExtractBaseName(name) == name
    ensures |ExtractBaseName(name)| <= |name|
  {
    MatchFromMeaning(name, 1, ParenTail);
  }

  /** "A (b)" reduces to "A". */
  lemma BaseNameExample()
    ensures ExtractBaseName("A (b)") == "A"
  {
    BaseNameMatch();
    BaseNamePrefix();
    BaseOfMatch("A (b)", 1);
  }

  lemma BaseNamePrefix()
    ensures Strip("A (b)"[..1]) == "A"
  {
    var a := "A (b)"[..1];
    assert a == "A";
    StripOfStripped(a);
  }

  /** When the match ends a stripped, non-empty prefix, the base name is
      that prefix. */
  lemma BaseOfMatch(name: string, k: nat)
    requires 1 <= k <= |name| && MatchFrom(name, 1, ParenTail) == Some(k) && Strip(name[..k]) != []
    ensures ExtractBaseName(name) == Strip(name[..k])
  {
  }

  lemma BaseNameMatch()
    ensures MatchFrom("A (b)", 1, ParenTail) == Some(1)
  {
    var s := "A (b)";
    var r := " (b)";
    assert s[0] == 'A' && s[1..] == r;
    assert AllSpace(r[..1]) && AllSpace(r[4..]);
    assert TailShape(r, 1, 3);
    TailAfterFirst(s, r, 1, 3);
  }

  /** A name whose first character is followed by a parenthesised tail
      matches after that character. */
  lemma TailAfterFirst(s: string, r: string, j: nat, m: nat)
    requires |s| >= 1 && s[0] != '\n' && s[1..] == r && TailShape(r, j, m)
    ensures MatchFrom(s, 1, ParenTail) == Some(1)
  {
    ShapeParenTail(r, j, m);
    MatchFromHit(s, 1, ParenTail);
  }

  /** A tail right after a newline-free character is the match. */
  lemma MatchFromHit(s: string, k: nat, tail: string -> bool)
    requires 1 <= k <= |s| && s[k - 1] != '\n' && tail(s[k..])
    ensures MatchFrom(s, k, tail) == Some(k)
  {
  }

  /** " (b)" has a blank base and is kept whole. */
  lemma BlankBaseExample()
    ensures ExtractBaseName(" (b)") == " (b)"
  {
    BlankBaseMatch();
    BlankPrefix();
  }

  lemma BlankBaseMatch()
    ensures MatchFrom(" (b)", 1, ParenTail) == Some(1)
  {
    var s := " (b)";
    var r := "(b)";
    assert s[0] == ' ' && s[1..] == r;
    assert AllSpace(r[..0]) && AllSpace(r[3..]);
    assert TailShape(r, 0, 2);
    TailAfterFirst(s, r, 0, 2);
  }

  lemma BlankPrefix()
    ensures Strip(" (b)"[..1]) == []
  {
    assert " (b)"[..1] == " ";
    StripEmptyIff(" ");
  }
}
