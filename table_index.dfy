/**
 * What the solvent and polymer services share about their in-memory
 * tables: dropping rows whose name repeats an earlier row's
 * (`drop_duplicates(subset=[name], keep='first')`), the dictionary index
 * built row by row where a later row overwrites an earlier row's keys,
 * the lookup key `name.lower().strip()`, and the cleaning of string
 * columns. The row and record types and the functions reading names and
 * keys are parameters.
 */
module TableIndex {

  import opened Common
  import opened Text
  import opened CsvCleaning

  // ------------------------------------------------------- string columns

  /** A string cell of the cleaned table: a string, Python's None (what
      cleaning leaves for an empty or "nan" cell, and what a record's
      missing value becomes), or NaN (a column an appended row lacks). */
  datatype Field = Str(s: string) | NoneValue | NaN

  /** `v if pd.notna(v) else None`. */
  function FieldValue(f: Field): Option<string>
  {
    if f.Str? then Some(f.s) else None
  }

  /** A record's optional string stored in the table. */
  function OptField(v: Option<string>): (f: Field)
    ensures FieldValue(f) == v
  {
    if v.Some? then Str(v.value) else NoneValue
  }

  /** The cell after `astype(str)`. */
  function FieldText(f: Field): string
  {
    match f
    case Str(s) => s
    case NoneValue => "None"
    case NaN => "nan"
  }

  /** `notna() & (col != '')`. */
  predicate Filled(f: Field)
  {
    f.Str? && f.s != ""
  }

  /** `astype(str).replace('nan', '')`, then `replace('', None)`. */
  function CleanString(c: Cell): (f: Field)
    ensures f != Str("") && f != Str("nan")
  {
    var t := Shown(c);
    if t == "nan" || t == "" then NoneValue else Str(t)
  }

  // ------------------------------------------------------- drop_duplicates

  /** Row `k` is the first row carrying its name. */
  predicate IsFirst<R>(rows: seq<R>, k: int, name: R -> string)
  {
    0 <= k < |rows| && forall j :: 0 <= j < k ==> name(rows[j]) != name(rows[k])
  }

  /** The rows among the first `n` that are the first of their name, in
      table order. */
  function KeepFirst<R>(rows: seq<R>, name: R -> string, n: nat): (r: seq<R>)
    requires n <= |rows|
    ensures |r| <= n
  {
    if n == 0 then []
    else KeepFirst(rows, name, n - 1) + (if IsFirst(rows, n - 1, name) then [rows[n - 1]] else [])
  }

  predicate UniqueNames<R>(s: seq<R>, name: R -> string)
  {
    forall i, j :: 0 <= i < j < |s| ==> name(s[i]) != name(s[j])
  }

  /** Some element of `s` carries the name `nm`. */
  predicate HasName<R>(s: seq<R>, nm: string, name: R -> string)
  {
    exists i :: 0 <= i < |s| && name(s[i]) == nm
  }

  /** `x` is a row among the first `n` that is the first of its name. */
  ghost predicate FirstAmong<R>(x: R, rows: seq<R>, name: R -> string, n: nat)
  {
    exists k :: 0 <= k < n && IsFirst(rows, k, name) && x == rows[k]
  }

  /** Every element of `s` is a row among the first `n` that is the first
      of its name. */
  ghost predicate AllFirsts<R>(s: seq<R>, rows: seq<R>, name: R -> string, n: nat)
  {
    forall i :: 0 <= i < |s| ==> FirstAmong(s[i], rows, name, n)
  }

  /** Each kept row is the first row of its name. */
  lemma KeepFirstFirsts<R>(rows: seq<R>, name: R -> string, n: nat)
    requires n <= |rows|
    ensures AllFirsts(KeepFirst(rows, name, n), rows, name, n)
  {
    forall i | 0 <= i < |KeepFirst(rows, name, n)| ensures FirstAmong(KeepFirst(rows, name, n)[i], rows, name, n) {
      KeptIsFirst(rows, name, n, i);
    }
  }

  lemma {:induction false} KeptIsFirst<R>(rows: seq<R>, name: R -> string, n: nat, i: nat)
    requires n <= |rows| && i < |KeepFirst(rows, name, n)|
    ensures FirstAmong(KeepFirst(rows, name, n)[i], rows, name, n)
  {
    var prev := KeepFirst(rows, name, n - 1);
    var r := KeepFirst(rows, name, n);
    assert r == prev + (if IsFirst(rows, n - 1, name) then [rows[n - 1]] else []);
    if i < |prev| {
      assert r[i] == prev[i];
      KeptIsFirst(rows, name, n - 1, i);
      FirstAmongMore(prev[i], rows, name, n - 1);
    } else {
      assert r[i] == rows[n - 1] && IsFirst(rows, n - 1, name);
      FirstAmongAt(rows, name, n - 1, n);
    }
  }

  lemma FirstAmongAt<R>(rows: seq<R>, name: R -> string, k: nat, n: nat)
    requires k < n && IsFirst(rows, k, name)
    ensures FirstAmong(rows[k], rows, name, n)
  {
  }

  lemma FirstAmongMore<R>(x: R, rows: seq<R>, name: R -> string, n: nat)
    requires FirstAmong(x, rows, name, n)
    ensures FirstAmong(x, rows, name, n + 1)
  {
    var k :| 0 <= k < n && IsFirst(rows, k, name) && x == rows[k];
  }

  /** What is kept has no repeated name. */
  lemma {:induction false} KeepFirstUnique<R>(rows: seq<R>, name: R -> string, n: nat)
    requires n <= |rows|
    ensures UniqueNames(KeepFirst(rows, name, n), name)
  {
    if n > 0 {
      KeepFirstUnique(rows, name, n - 1);
      var prev := KeepFirst(rows, name, n - 1);
      if IsFirst(rows, n - 1, name) {
        assert KeepFirst(rows, name, n) == prev + [rows[n - 1]];
        KeptNamesDiffer(rows, name, n - 1);
        SnocUnique(prev, rows[n - 1], name);
      } else {
        assert KeepFirst(rows, name, n) == prev;
      }
    }
  }

  /** The rows kept before a row that is the first of its name carry other
      names. */
  lemma KeptNamesDiffer<R>(rows: seq<R>, name: R -> string, n: nat)
    requires n < |rows| && IsFirst(rows, n, name)
    ensures forall i :: 0 <= i < |KeepFirst(rows, name, n)| ==> name(KeepFirst(rows, name, n)[i]) != name(rows[n])
  {
    KeepFirstFirsts(rows, name, n);
    FirstsDiffer(KeepFirst(rows, name, n), rows, name, n);
  }

  /** The first rows among the first `n` carry names other than row `n`'s
      when that row is itself the first of its name. */
  lemma FirstsDiffer<R>(s: seq<R>, rows: seq<R>, name: R -> string, n: nat)
    requires AllFirsts(s, rows, name, n) && IsFirst(rows, n, name)
    ensures forall i :: 0 <= i < |s| ==> name(s[i]) != name(rows[n])
  {
    forall i | 0 <= i < |s| ensures name(s[i]) != name(rows[n]) {
      var k :| 0 <= k < n && IsFirst(rows, k, name) && s[i] == rows[k];
    }
  }

  lemma SnocUnique<R>(s: seq<R>, x: R, name: R -> string)
    requires UniqueNames(s, name)
    requires forall i :: 0 <= i < |s| ==> name(s[i]) != name(x)
    ensures UniqueNames(s + [x], name)
  {
    var r := s + [x];
    forall i, j | 0 <= i < j < |r| ensures name(r[i]) != name(r[j]) {
      assert r[i] == s[i];
      if j < |s| { assert r[j] == s[j]; }
    }
  }

  /** Every name of the table survives. */
  lemma {:induction false} KeepFirstCovers<R>(rows: seq<R>, name: R -> string, n: nat)
    requires n <= |rows|
    ensures forall k :: 0 <= k < n ==> HasName(KeepFirst(rows, name, n), name(rows[k]), name)
  {
    if n > 0 {
      KeepFirstCovers(rows, name, n - 1);
      var prev := KeepFirst(rows, name, n - 1);
      var r := KeepFirst(rows, name, n);
      forall k | 0 <= k < n ensures HasName(r, name(rows[k]), name) {
        if k < n - 1 {
          var i :| 0 <= i < |prev| && name(prev[i]) == name(rows[k]);
          assert r[i] == prev[i];
        } else if IsFirst(rows, n - 1, name) {
          assert r[|prev|] == rows[n - 1];
        } else {
          var j :| 0 <= j < n - 1 && name(rows[j]) == name(rows[n - 1]);
          var i :| 0 <= i < |prev| && name(prev[i]) == name(rows[j]);
          assert r[i] == prev[i];
        }
      }
    }
  }

  // ----------------------------------------------------------- row masks

  /** `df[mask]`: the rows satisfying `p`, in table order. */
  function Where<R>(s: seq<R>, p: R -> bool): (r: seq<R>)
    ensures |r| <= |s|
  {
    if |s| == 0 then [] else Where(s[..|s| - 1], p) + (if p(s[|s| - 1]) then [s[|s| - 1]] else [])
  }

  /** The selection holds exactly the rows satisfying the mask, as many as
      there are. */
  lemma {:induction false} WhereMeaning<R>(s: seq<R>, p: R -> bool)
    ensures forall x :: x in Where(s, p) <==> x in s && p(x)
    ensures |Where(s, p)| == Count(s, p)
  {
    if |s| > 0 {
      var init := s[..|s| - 1];
      WhereMeaning(init, p);
      assert s == init + [s[|s| - 1]];
    }
  }

  /** Masking twice is masking once with both conditions. */
  lemma {:induction false} WhereWhere<R>(s: seq<R>, p: R -> bool, q: R -> bool, both: R -> bool)
    requires forall x :: both(x) == (p(x) && q(x))
    ensures Where(Where(s, p), q) == Where(s, both)
  {
    if |s| > 0 {
      var init := s[..|s| - 1];
      var x := s[|s| - 1];
      WhereWhere(init, p, q, both);
      var w := Where(init, p);
      if p(x) {
        assert Where(s, p) == w + [x];
        assert (w + [x])[..|w|] == w;
      } else {
        assert Where(s, p) == w;
      }
    }
  }

  /** A mask every row passes selects the whole table. */
  lemma {:induction false} WhereAll<R>(s: seq<R>, p: R -> bool)
    requires forall i :: 0 <= i < |s| ==> p(s[i])
    ensures Where(s, p) == s
  {
    if |s| > 0 {
      WhereAll(s[..|s| - 1], p);
    }
  }

  /** `a` is `b` with some elements left out and the rest in order. */
  predicate SubseqOf<R(==)>(a: seq<R>, b: seq<R>)
    decreases |b|
  {
    if |b| == 0 then |a| == 0
    else (|a| > 0 && a[|a| - 1] == b[|b| - 1] && SubseqOf(a[..|a| - 1], b[..|b| - 1])) || SubseqOf(a, b[..|b| - 1])
  }

  /** A selection keeps the table's order. */
  lemma {:induction false} WhereSubseq<R>(s: seq<R>, p: R -> bool)
    ensures SubseqOf(Where(s, p), s)
  {
    if |s| > 0 {
      var init := s[..|s| - 1];
      var x := s[|s| - 1];
      WhereSubseq(init, p);
      var w := Where(init, p);
      if p(x) {
        assert Where(s, p) == w + [x];
        assert (w + [x])[..|w|] == w;
      } else {
        assert Where(s, p) == w;
      }
    }
  }

  /** `df.iloc[start:end]` for `0 <= start <= end`. */
  function Slice<R>(s: seq<R>, start: nat, end: nat): (r: seq<R>)
    requires start <= end
    ensures |r| <= end - start
    ensures start <= |s| ==> r == s[start..if end <= |s| then end else |s|]
    ensures start > |s| ==> r == []
  {
    if start >= |s| then [] else s[start..if end <= |s| then end else |s|]
  }

  /** A window of the selected elements holds selected elements of `s`. */
  lemma SliceOfWhere<R>(s: seq<R>, p: R -> bool, start: nat, end: nat)
    requires start <= end
    ensures forall x :: x in Slice(Where(s, p), start, end) ==> x in s && p(x)
  {
    WhereMeaning(s, p);
    SliceIn(Where(s, p), start, end);
    forall x | x in Slice(Where(s, p), start, end) ensures x in s && p(x) {
      assert x in Where(s, p);
    }
  }

  lemma SliceIn<R>(s: seq<R>, start: nat, end: nat)
    requires start <= end
    ensures forall x :: x in Slice(s, start, end) ==> x in s
  {
    if start < |s| {
      var e := if end <= |s| then end else |s|;
      forall x | x in s[start..e] ensures x in s {
        var i :| 0 <= i < e - start && s[start..e][i] == x;
        assert s[start + i] == x;
      }
    }
  }

  /** The values `f` produces, in order, skipping the elements it maps to
      None (a loop that appends what converts and logs what raises). */
  function Collect<A, B>(s: seq<A>, f: A -> Option<B>): (r: seq<B>)
    ensures |r| <= |s|
  {
    if |s| == 0 then [] else Collect(s[..|s| - 1], f) + (if f(s[|s| - 1]).Some? then [f(s[|s| - 1]).value] else [])
  }

  /** Some element of `s` produces `x`. */
  ghost predicate Produces<A, B>(s: seq<A>, f: A -> Option<B>, x: B)
  {
    exists j :: 0 <= j < |s| && f(s[j]) == Some(x)
  }

  /** Every value collected comes from some element, every value an
      element produces is collected, and nothing is lost when every
      element produces one. */
  lemma CollectMeaning<A, B>(s: seq<A>, f: A -> Option<B>)
    ensures forall i :: 0 <= i < |Collect(s, f)| ==> Produces(s, f, Collect(s, f)[i])
    ensures forall j :: 0 <= j < |s| && f(s[j]).Some? ==> f(s[j]).value in Collect(s, f)
    ensures (forall j :: 0 <= j < |s| ==> f(s[j]).Some?) ==> |Collect(s, f)| == |s|
  {
    CollectProduced(s, f);
    CollectHas(s, f);
    CollectTotal(s, f);
  }

  lemma {:induction false} CollectProduced<A, B>(s: seq<A>, f: A -> Option<B>)
    ensures forall i :: 0 <= i < |Collect(s, f)| ==> Produces(s, f, Collect(s, f)[i])
  {
    if |s| > 0 {
      var n := |s| - 1;
      var init := s[..n];
      CollectProduced(init, f);
      var prev := Collect(init, f);
      var r := Collect(s, f);
      assert r == prev + (if f(s[n]).Some? then [f(s[n]).value] else []);
      forall i | 0 <= i < |r| ensures Produces(s, f, r[i]) {
        if i < |prev| {
          assert r[i] == prev[i];
          var j :| 0 <= j < |init| && f(init[j]) == Some(prev[i]);
          assert init[j] == s[j];
        } else {
          assert f(s[n]) == Some(r[i]);
        }
      }
    }
  }

  lemma {:induction false} CollectHas<A, B>(s: seq<A>, f: A -> Option<B>)
    ensures forall j :: 0 <= j < |s| && f(s[j]).Some? ==> f(s[j]).value in Collect(s, f)
  {
    if |s| > 0 {
      var n := |s| - 1;
      var init := s[..n];
      CollectHas(init, f);
      var prev := Collect(init, f);
      var r := Collect(s, f);
      assert r == prev + (if f(s[n]).Some? then [f(s[n]).value] else []);
      forall j | 0 <= j < |s| && f(s[j]).Some? ensures f(s[j]).value in r {
        if j < n {
          assert init[j] == s[j];
          assert f(init[j]).value in prev;
        } else {
          assert r[|prev|] == f(s[j]).value;
        }
      }
    }
  }

  lemma {:induction false} CollectTotal<A, B>(s: seq<A>, f: A -> Option<B>)
    ensures (forall j :: 0 <= j < |s| ==> f(s[j]).Some?) ==> |Collect(s, f)| == |s|
  {
    if |s| > 0 && forall j :: 0 <= j < |s| ==> f(s[j]).Some? {
      var init := s[..|s| - 1];
      forall j | 0 <= j < |init| ensures f(init[j]).Some? { assert init[j] == s[j]; }
      CollectTotal(init, f);
    }
  }

  lemma CollectStep<A, B>(s: seq<A>, i: nat, f: A -> Option<B>)
    requires i < |s|
    ensures Collect(s[..i + 1], f) == Collect(s[..i], f) + (if f(s[i]).Some? then [f(s[i]).value] else [])
  {
    assert s[..i + 1][..i] == s[..i];
  }

  // ---------------------------------------------------------------- index

  /** One converted row written into the index under each of its keys; a
      row whose conversion raised (None) is skipped. */
  function Put<D>(m: map<string, D>, d: Option<D>, keys: D -> seq<string>): map<string, D>
  {
    match d
    case None => m
    case Some(v) => PutKeys(m, keys(v), v)
  }

  function PutKeys<D>(m: map<string, D>, ks: seq<string>, v: D): (r: map<string, D>)
    ensures forall k :: k in r <==> k in m || k in ks
    ensures forall k :: k in r ==> r[k] == if k in ks then v else m[k]
  {
    if |ks| == 0 then m else PutKeys(m, ks[..|ks| - 1], v)[ks[|ks| - 1] := v]
  }

  lemma PutMeaning<D>(m: map<string, D>, d: Option<D>, keys: D -> seq<string>)
    ensures forall k :: k in Put(m, d, keys) <==> k in m || (d.Some? && k in keys(d.value))
    ensures forall k :: k in Put(m, d, keys) ==>
      Put(m, d, keys)[k] == if d.Some? && k in keys(d.value) then d.value else m[k]
  {
  }

  /** The index after the loop over the converted rows. */
  function Index<D>(ds: seq<Option<D>>, keys: D -> seq<string>): map<string, D>
  {
    if |ds| == 0 then map[] else Put(Index(ds[..|ds| - 1], keys), ds[|ds| - 1], keys)
  }

  /** Row `i` writes key `k`. */
  predicate Writes<D>(ds: seq<Option<D>>, i: int, k: string, keys: D -> seq<string>)
  {
    0 <= i < |ds| && ds[i].Some? && k in keys(ds[i].value)
  }

  /** A key is present exactly when some row writes it. */
  lemma {:induction false} IndexKeys<D>(ds: seq<Option<D>>, keys: D -> seq<string>)
    ensures forall k :: k in Index(ds, keys) <==> exists i :: Writes(ds, i, k, keys)
  {
    if |ds| > 0 {
      var n := |ds| - 1;
      var init := ds[..n];
      IndexKeys(init, keys);
      assert Index(ds, keys) == Put(Index(init, keys), ds[n], keys);
      PutMeaning(Index(init, keys), ds[n], keys);
      forall k ensures k in Index(ds, keys) <==> exists i :: Writes(ds, i, k, keys) {
        if exists i :: Writes(ds, i, k, keys) {
          var i :| Writes(ds, i, k, keys);
          if i < n { assert Writes(init, i, k, keys); }
        }
        if k in Index(init, keys) {
          var i :| Writes(init, i, k, keys);
          assert Writes(ds, i, k, keys);
        }
        if ds[n].Some? && k in keys(ds[n].value) {
          assert Writes(ds, n, k, keys);
        }
      }
    }
  }

  /** Row `i` is the last row writing key `k`. */
  predicate LastWriter<D>(ds: seq<Option<D>>, i: int, k: string, keys: D -> seq<string>)
  {
    Writes(ds, i, k, keys) && forall j :: i < j < |ds| ==> !Writes(ds, j, k, keys)
  }

  /** A present key holds the record of the last row writing it. */
  lemma {:induction false} IndexValues<D>(ds: seq<Option<D>>, keys: D -> seq<string>)
    ensures forall k :: k in Index(ds, keys) ==>
      exists i :: LastWriter(ds, i, k, keys) && Index(ds, keys)[k] == ds[i].value
  {
    if |ds| > 0 {
      var n := |ds| - 1;
      var init := ds[..n];
      IndexValues(init, keys);
      var m := Index(init, keys);
      PutMeaning(m, ds[n], keys);
      forall k | k in Index(ds, keys) ensures exists i :: LastWriter(ds, i, k, keys) && Index(ds, keys)[k] == ds[i].value {
        if Writes(ds, n, k, keys) {
          assert LastWriter(ds, n, k, keys);
        } else {
          assert k in m;
          var i :| LastWriter(init, i, k, keys) && m[k] == init[i].value;
          assert init[i] == ds[i];
          forall j | i < j < |ds| ensures !Writes(ds, j, k, keys) {
            if j < n { assert init[j] == ds[j]; assert !Writes(init, j, k, keys); }
          }
          assert LastWriter(ds, i, k, keys);
        }
      }
    }
  }

  /** One more row: the index of the longer prefix is the shorter one's
      with that row put in. */
  lemma IndexStep<D>(ds: seq<Option<D>>, i: nat, keys: D -> seq<string>)
    requires i < |ds|
    ensures Index(ds[..i + 1], keys) == Put(Index(ds[..i], keys), ds[i], keys)
  {
    assert ds[..i + 1][..i] == ds[..i];
  }

  // --------------------------------------------------------------- lookup

  /** `name.lower().strip()`. */
  function LookupKey(name: string): string
  {
    Strip(Lower(name))
  }

  /** `index.get(name.lower().strip())`. */
  function LookupName<D>(m: map<string, D>, name: string): Option<D>
  {
    if LookupKey(name) in m then Some(m[LookupKey(name)]) else None
  }

  /** The lookup ignores case and surrounding whitespace: the key is the
      stripped name lower-cased, and a name, its stripped form and its
      lower-cased form all look up the same key. */
  lemma LookupKeyMeaning(name: string)
    ensures LookupKey(name) == Lower(Strip(name))
    ensures LookupKey(Strip(name)) == LookupKey(name)
    ensures LookupKey(Lower(name)) == LookupKey(name)
  {
    StripLower(name);
    StripLower(Strip(name));
    StripIdempotent(name);
    LowerIdempotent(name);
  }
}
