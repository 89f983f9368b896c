/**
 * The duplicate-resolution registry of the two consolidation scripts
 * (`consolidate_files` in scripts/consolidate_solvent_csv.py and
 * scripts/consolidate_csv.py): rows arrive in order, each with a key and a
 * priority score; the first row of a key is registered, a later row
 * replaces the registered one only with a strictly higher score, and every
 * later row of a key, accepted or not, adds one to that key's duplicate
 * count. The scripts differ only in the key and the score, so the
 * registry is generic in the row.
 */
module DuplicateRegistry {

  import opened Common
  import opened Sorting

  datatype Entry<T> = Entry(key: string, score: int, row: T)

  /** The registry, its keys in first-registration order (the order of
      the dictionary's values), and the duplicate counts. */
  datatype State<T> = State(registry: map<string, Entry<T>>, order: seq<string>, dups: map<string, nat>)

  function Dup(d: map<string, nat>, k: string): nat
  {
    if k in d then d[k] else 0
  }

  function Step<T>(st: State<T>, e: Entry<T>): State<T>
  {
    if e.key in st.registry then
      var dups := st.dups[e.key := Dup(st.dups, e.key) + 1];
      if e.score > st.registry[e.key].score then State(st.registry[e.key := e], st.order, dups)
      else State(st.registry, st.order, dups)
    else State(st.registry[e.key := e], st.order + [e.key], st.dups)
  }

  /** The three cases of a step, one by one. */
  lemma StepCases<T>(st: State<T>, e: Entry<T>)
    ensures e.key in st.registry && e.score > st.registry[e.key].score ==>
      Step(st, e) == State(st.registry[e.key := e], st.order, st.dups[e.key := Dup(st.dups, e.key) + 1])
    ensures e.key in st.registry && e.score <= st.registry[e.key].score ==>
      Step(st, e) == State(st.registry, st.order, st.dups[e.key := Dup(st.dups, e.key) + 1])
    ensures e.key !in st.registry ==>
      Step(st, e) == State(st.registry[e.key := e], st.order + [e.key], st.dups)
  {
  }

  /** The registry after offering `es` in order. */
  function Run<T>(st: State<T>, es: seq<Entry<T>>): State<T>
  {
    if |es| == 0 then st else Step(Run(st, es[..|es| - 1]), es[|es| - 1])
  }

  lemma {:induction false} RunAppend<T>(st: State<T>, a: seq<Entry<T>>, b: seq<Entry<T>>)
    ensures Run(st, a + b) == Run(Run(st, a), b)
    decreases |b|
  {
    if |b| == 0 {
      assert a + b == a;
    } else {
      assert (a + b)[..|a + b| - 1] == a + b[..|b| - 1];
      assert (a + b)[|a + b| - 1] == b[|b| - 1];
      RunAppend(st, a, b[..|b| - 1]);
    }
  }

  /** An empty registry over the duplicate counts kept so far. */
  function Fresh<T>(dups: map<string, nat>): State<T>
  {
    State(map[], [], dups)
  }

  /** Each entry sits under its own key, the order lists every key once. */
  ghost predicate Consistent<T>(st: State<T>)
  {
    && (forall k :: k in st.registry ==> st.registry[k].key == k)
    && (forall k :: k in st.registry <==> k in st.order)
    && (forall i, j :: 0 <= i < j < |st.order| ==> st.order[i] != st.order[j])
    && |st.order| == |st.registry|
  }

  lemma {:induction false} RunConsistent<T>(dups: map<string, nat>, es: seq<Entry<T>>)
    ensures Consistent(Run(Fresh<T>(dups), es))
  {
    if |es| > 0 {
      RunConsistent(dups, es[..|es| - 1]);
      StepConsistent(Run(Fresh<T>(dups), es[..|es| - 1]), es[|es| - 1]);
    }
  }

  lemma StepConsistent<T>(st: State<T>, e: Entry<T>)
    requires Consistent(st)
    ensures Consistent(Step(st, e))
  {
    StepCases(st, e);
    if e.key !in st.registry {
      NewKeyConsistent(st.registry, st.order, st.dups, e);
    }
  }

  /** Registering a new key keeps the order free of repeats. */
  lemma NewKeyConsistent<T>(reg: map<string, Entry<T>>, order: seq<string>, dups: map<string, nat>, e: Entry<T>)
    requires Consistent(State(reg, order, dups)) && e.key !in reg
    ensures Consistent(State(reg[e.key := e], order + [e.key], dups))
  {
    var reg', order' := reg[e.key := e], order + [e.key];
    NewKeyCard(reg, e.key, e);
    SnocDistinct(order, e.key);
    SnocMembers(order, e.key);
    assert forall k :: k in reg' ==> reg'[k].key == k;
    assert forall k :: k in reg' <==> k in order';
  }

  lemma NewKeyCard<T>(reg: map<string, Entry<T>>, k: string, e: Entry<T>)
    requires k !in reg
    ensures |reg[k := e]| == |reg| + 1
    ensures forall x :: x in reg[k := e] <==> x in reg || x == k
  {
    assert reg[k := e].Keys == reg.Keys + {k};
  }

  lemma SnocDistinct(order: seq<string>, k: string)
    requires forall i, j :: 0 <= i < j < |order| ==> order[i] != order[j]
    requires k !in order
    ensures forall i, j :: 0 <= i < j < |order + [k]| ==> (order + [k])[i] != (order + [k])[j]
  {
  }

  lemma SnocMembers(order: seq<string>, k: string)
    ensures forall x :: x in order + [k] <==> x in order || x == k
  {
  }

  function CountKey<T>(es: seq<Entry<T>>, k: string): (n: nat)
    ensures n <= |es|
  {
    if |es| == 0 then 0 else CountKey(es[..|es| - 1], k) + (if es[|es| - 1].key == k then 1 else 0)
  }

  lemma {:induction false} CountKeyZero<T>(es: seq<Entry<T>>, k: string)
    ensures CountKey(es, k) == 0 <==> forall i :: 0 <= i < |es| ==> es[i].key != k
  {
    if |es| > 0 {
      CountKeyZero(es[..|es| - 1], k);
      assert forall i :: 0 <= i < |es| - 1 ==> es[..|es| - 1][i] == es[i];
    }
  }

  /** A key is registered exactly when some row carries it. */
  lemma {:induction false} RunKeys<T>(dups: map<string, nat>, es: seq<Entry<T>>)
    ensures forall k :: k in Run(Fresh<T>(dups), es).registry <==> exists i :: 0 <= i < |es| && es[i].key == k
  {
    if |es| > 0 {
      var n := |es| - 1;
      var init := es[..n];
      RunKeys(dups, init);
      var old_ := Run(Fresh<T>(dups), init).registry;
      var reg := Run(Fresh<T>(dups), es).registry;
      var e := es[n];
      assert reg.Keys == old_.Keys + {e.key};
      forall k ensures k in reg <==> exists i :: 0 <= i < |es| && es[i].key == k {
        if k in reg {
          if k == e.key {
            assert es[n].key == k;
          } else {
            var i :| 0 <= i < n && init[i].key == k;
            assert es[i].key == k;
          }
        }
        if exists i :: 0 <= i < |es| && es[i].key == k {
          var i :| 0 <= i < |es| && es[i].key == k;
          if i < n { assert init[i].key == k; }
        }
      }
    }
  }

  /** A step touches the duplicate count of its own key only, and only
      when that key is already registered. */
  lemma StepDups<T>(st: State<T>, e: Entry<T>, k: string)
    ensures k in Step(st, e).dups <==> k in st.dups || (k == e.key && e.key in st.registry)
    ensures Dup(Step(st, e).dups, k) == Dup(st.dups, k) + (if k == e.key && e.key in st.registry then 1 else 0)
  {
  }

  /** Row `i` is the first row of maximal score among the rows of key `k`. */
  predicate IsWinner<T>(es: seq<Entry<T>>, k: string, i: int)
  {
    && 0 <= i < |es| && es[i].key == k
    && (forall j :: 0 <= j < |es| && es[j].key == k ==> es[j].score <= es[i].score)
    && (forall j :: 0 <= j < i && es[j].key == k ==> es[j].score < es[i].score)
  }

  lemma WinnerStays<T>(es: seq<Entry<T>>, e: Entry<T>, k: string, i: int)
    requires IsWinner(es, k, i)
    requires e.key != k || e.score <= es[i].score
    ensures IsWinner(es + [e], k, i)
  {
    var es' := es + [e];
    assert forall j :: 0 <= j < |es| ==> es'[j] == es[j];
  }

  lemma WinnerNew<T>(es: seq<Entry<T>>, e: Entry<T>)
    requires forall j :: 0 <= j < |es| && es[j].key == e.key ==> es[j].score < e.score
    ensures IsWinner(es + [e], e.key, |es|)
  {
    var es' := es + [e];
    assert forall j :: 0 <= j < |es| ==> es'[j] == es[j];
  }

  /** The row registered under a key is the first row of maximal score
      among the rows of that key. */
  lemma {:induction false} RunWinner<T>(dups: map<string, nat>, es: seq<Entry<T>>)
    ensures forall k :: k in Run(Fresh<T>(dups), es).registry ==>
      exists i :: IsWinner(es, k, i) && es[i] == Run(Fresh<T>(dups), es).registry[k]
  {
    if |es| > 0 {
      var n := |es| - 1;
      var init := es[..n];
      assert es == init + [es[n]];
      RunWinner(dups, init);
      RunKeys(dups, init);
      var before := Run(Fresh<T>(dups), init);
      forall k | k in Step(before, es[n]).registry
        ensures exists i :: IsWinner(init + [es[n]], k, i) && (init + [es[n]])[i] == Step(before, es[n]).registry[k]
      {
        WinnerStep(init, es[n], before, k);
      }
    }
  }

  /** One step keeps the registered row of `k` the winner of its key. */
  lemma WinnerStep<T>(init: seq<Entry<T>>, e: Entry<T>, before: State<T>, k: string)
    requires k in before.registry ==> exists i :: IsWinner(init, k, i) && init[i] == before.registry[k]
    requires k !in before.registry ==> forall j :: 0 <= j < |init| ==> init[j].key != k
    requires k in Step(before, e).registry
    ensures exists i :: IsWinner(init + [e], k, i) && (init + [e])[i] == Step(before, e).registry[k]
  {
    var es := init + [e];
    var n := |init|;
    var reg := Step(before, e).registry;
    StepCases(before, e);
    if k !in before.registry {
      WinnerNew(init, e);
      assert es[n] == reg[k];
    } else {
      var i :| IsWinner(init, k, i) && init[i] == before.registry[k];
      if k == e.key && e.score > before.registry[k].score {
        WinnerNew(init, e);
        assert es[n] == reg[k];
      } else {
        WinnerStays(init, e, k, i);
        assert es[i] == reg[k];
      }
    }
  }

  /** A key's duplicate count grows by one for every row of that key after
      its first, and a key gains a count only once it has a duplicate. */
  lemma {:induction false} RunDuplicates<T>(dups: map<string, nat>, es: seq<Entry<T>>)
    ensures forall k :: k in Run(Fresh<T>(dups), es).dups <==> k in dups || CountKey(es, k) >= 2
    ensures forall k :: Dup(Run(Fresh<T>(dups), es).dups, k) == Dup(dups, k) + (if CountKey(es, k) == 0 then 0 else CountKey(es, k) - 1)
  {
    if |es| > 0 {
      var n := |es| - 1;
      var init := es[..n];
      RunDuplicates(dups, init);
      RunKeys(dups, init);
      var e := es[n];
      CountKeyZero(init, e.key);
      var before := Run(Fresh<T>(dups), init);
      var after := Run(Fresh<T>(dups), es);
      assert after == Step(before, e);
      assert e.key in before.registry <==> CountKey(init, e.key) > 0;
      forall k ensures (k in after.dups <==> k in dups || CountKey(es, k) >= 2)
        && Dup(after.dups, k) == Dup(dups, k) + (if CountKey(es, k) == 0 then 0 else CountKey(es, k) - 1)
      {
        assert CountKey(es, k) == CountKey(init, k) + (if e.key == k then 1 else 0);
        StepDups(before, e, k);
      }
    }
  }

  function NegScore<T>(e: Entry<T>): real
  {
    -(e.score as real)
  }

  /** The registered entries in registration order. */
  function Values<T>(st: State<T>): (vs: seq<Entry<T>>)
    requires forall k :: k in st.order ==> k in st.registry
    ensures |vs| == |st.order|
    ensures forall i :: 0 <= i < |vs| ==> vs[i] == st.registry[st.order[i]]
  {
    seq(|st.order|, i requires 0 <= i < |st.order| => st.registry[st.order[i]])
  }

  /** `sort_values('priority_score', ascending=False)` over the registry's
      values. */
  function Sorted<T>(st: State<T>): seq<Entry<T>>
    requires forall k :: k in st.order ==> k in st.registry
  {
    SortBy(Values(st), NegScore)
  }

  /** The sorted output has one entry per registered key, each the entry
      registered under its key, in non-increasing score order. */
  lemma SortedMeaning<T>(st: State<T>)
    requires Consistent(st)
    ensures |Sorted(st)| == |st.registry|
    ensures forall i :: 0 <= i < |Sorted(st)| ==> Sorted(st)[i].key in st.registry && st.registry[Sorted(st)[i].key] == Sorted(st)[i]
    ensures forall k :: k in st.registry ==> st.registry[k] in Sorted(st)
    ensures forall i, j :: 0 <= i < j < |Sorted(st)| ==> Sorted(st)[i].score >= Sorted(st)[j].score
  {
    var vs := Values(st);
    var out := Sorted(st);
    SortedFromRegistry(st, vs, out);
    SortedCovers(st, vs, out);
    SortedScores(out);
  }

  lemma SortedFromRegistry<T>(st: State<T>, vs: seq<Entry<T>>, out: seq<Entry<T>>)
    requires Consistent(st) && vs == Values(st) && out == SortBy(vs, NegScore)
    ensures forall i :: 0 <= i < |out| ==> out[i].key in st.registry && st.registry[out[i].key] == out[i]
  {
    SortBySameElements(vs, NegScore);
    forall i | 0 <= i < |out| ensures out[i].key in st.registry && st.registry[out[i].key] == out[i] {
      assert out[i] in out;
      assert out[i] in vs;
      var j :| 0 <= j < |vs| && vs[j] == out[i];
      assert vs[j] == st.registry[st.order[j]];
    }
  }

  lemma SortedCovers<T>(st: State<T>, vs: seq<Entry<T>>, out: seq<Entry<T>>)
    requires Consistent(st) && vs == Values(st) && out == SortBy(vs, NegScore)
    ensures forall k :: k in st.registry ==> st.registry[k] in out
  {
    SortBySameElements(vs, NegScore);
    forall k | k in st.registry ensures st.registry[k] in out {
      var i :| 0 <= i < |st.order| && st.order[i] == k;
      assert vs[i] == st.registry[k];
      assert vs[i] in vs;
    }
  }

  lemma SortedScores<T>(out: seq<Entry<T>>)
    requires SortedBy(out, NegScore)
    ensures forall i, j :: 0 <= i < j < |out| ==> out[i].score >= out[j].score
  {
    forall i, j | 0 <= i < j < |out| ensures out[i].score >= out[j].score {
      assert NegScore(out[i]) <= NegScore(out[j]);
    }
  }
}
