/** The semantic normal form that decides whether two provider runs agree
    (tools/run_step18_v4_dependency_provider.py, `_semantic`). */
module SemanticForm {
  import opened Common
  import opened Text
  import opened Sorting

  /** A parsed JSON value; a number is kept as the text it is written with. */
  datatype Json =
    | Null | Bool(b: bool) | Number(text: string) | Str(s: string)
    | List(items: seq<Json>)
    | Dict(fields: map<string, Json>)

  const UNORDERED := {"results", "relationship_candidates", "ucc_evidence", "fd_evidence", "inclusion_dependencies",
                      "artifacts", "evidence_refs", "input_batch_ids", "table_ids", "selected_table_ids",
                      "requested_kinds"}

  const VOLATILE := {"created_at", "content_hash", "artifact_location"}

  const MARKER := Str("<volatile-envelope>")

  predicate Unordered(key: Option<string>) { key.Some? && key.value in UNORDERED }

  predicate Volatile(key: Option<string>) { key.Some? && key.value in VOLATILE }

  predicate Scalar(v: Json) { !v.List? && !v.Dict? }

  /** `dumps` stands for json.dumps with sorted keys: some text that tells any two values apart. */
  ghost predicate Faithful(dumps: Json -> string) { forall a, b :: dumps(a) == dumps(b) ==> a == b }

  /** The order of `sorted(items, key=dumps)`. */
  function ByDump(dumps: Json -> string): (Json, Json) -> bool { (a, b) => LexLe(dumps(a), dumps(b)) }

  lemma DumpOrder(dumps: Json -> string)
    requires Faithful(dumps)
    ensures TotalOrder(ByDump(dumps))
  {
    var le := ByDump(dumps);
    forall a, b ensures le(a, b) || le(b, a) { LexTotal(dumps(a), dumps(b)); }
    forall a, b | le(a, b) && le(b, a) ensures a == b { LexAntisymmetric(dumps(a), dumps(b)); }
    forall a, b, c | le(a, b) && le(b, c) ensures le(a, c) { LexTransitive(dumps(a), dumps(b), dumps(c)); }
  }

  // ---------------------------------------------------------------- the normal form

  function Semantic(dumps: Json -> string, v: Json, key: Option<string>): Json
    decreases v
  {
    match v
    case Dict(fields) => Dict(map name | name in fields :: Semantic(dumps, fields[name], Some(name)))
    case List(items) =>
      var forms := seq(|items|, i requires 0 <= i < |items| => Semantic(dumps, items[i], key));
      List(if Unordered(key) then Sort(ByDump(dumps), forms) else forms)
    case _ => if Volatile(key) then MARKER else v
  }

  // ---------------------------------------------------------------- what it decides

  /** `a` becomes `b` by permuting the lists under unordered keys, at any depth, and changing the
      scalars under volatile keys.  A list inside a list inherits its key. */
  ghost predicate Agree(a: Json, b: Json, key: Option<string>)
    decreases a
  {
    match a
    case Dict(fields) =>
      b.Dict? && fields.Keys == b.fields.Keys
      && forall name | name in fields :: Agree(fields[name], b.fields[name], Some(name))
    case List(items) =>
      b.List? && |items| == |b.items|
      && if Unordered(key) then
           exists p :: Permutation(p, |items|) && forall i | 0 <= i < |items| :: Agree(items[i], b.items[p[i]], key)
         else
           forall i | 0 <= i < |items| :: Agree(items[i], b.items[i], key)
    case _ => Scalar(b) && (Volatile(key) || a == b)
  }

  // ---------------------------------------------------------------- the main results

  function Forms(dumps: Json -> string, items: seq<Json>, key: Option<string>): seq<Json> {
    seq(|items|, i requires 0 <= i < |items| => Semantic(dumps, items[i], key))
  }

  /** Two runs have equal normal forms exactly when one becomes the other by permuting unordered
      lists and changing volatile scalars. */
  lemma {:induction false} SemanticDecidesAgree(dumps: Json -> string, a: Json, b: Json, key: Option<string>)
    requires Faithful(dumps)
    ensures Semantic(dumps, a, key) == Semantic(dumps, b, key) <==> Agree(a, b, key)
    decreases a
  {
    if a.Dict? && b.Dict? {
      DictCase(dumps, a, b, key);
    } else if a.List? && b.List? {
      ListCase(dumps, a, b, key);
    }
  }

  lemma {:induction false} DictCase(dumps: Json -> string, a: Json, b: Json, key: Option<string>)
    requires Faithful(dumps) && a.Dict? && b.Dict?
    ensures Semantic(dumps, a, key) == Semantic(dumps, b, key) <==> Agree(a, b, key)
    decreases a, 0
  {
    var m, n := Semantic(dumps, a, key).fields, Semantic(dumps, b, key).fields;
    forall name | name in a.fields && name in b.fields
      ensures m[name] == n[name] <==> Agree(a.fields[name], b.fields[name], Some(name))
    {
      SemanticDecidesAgree(dumps, a.fields[name], b.fields[name], Some(name));
    }
    assert m.Keys == a.fields.Keys && n.Keys == b.fields.Keys;
  }

  lemma {:induction false} ListCase(dumps: Json -> string, a: Json, b: Json, key: Option<string>)
    requires Faithful(dumps) && a.List? && b.List?
    ensures Semantic(dumps, a, key) == Semantic(dumps, b, key) <==> Agree(a, b, key)
    decreases a, 0
  {
    var s, t := Forms(dumps, a.items, key), Forms(dumps, b.items, key);
    forall i, j | 0 <= i < |s| && 0 <= j < |t| ensures Decides(s, t, a.items, b.items, key, i, j) {
      SemanticDecidesAgree(dumps, a.items[i], b.items[j], key);
    }
    if !Unordered(key) {
      AgreeInPlace(a, b, key, s, t);
    } else {
      AgreeUpToOrder(a, b, key, s, t);
      DumpOrder(dumps);
      SortSame(ByDump(dumps), s, t);
    }
  }

  /** The forms at two positions are equal exactly when the items agree. */
  ghost predicate Decides(s: seq<Json>, t: seq<Json>, items: seq<Json>, others: seq<Json>, key: Option<string>,
                          i: nat, j: nat)
    requires i < |s| == |items| && j < |t| == |others|
  {
    s[i] == t[j] <==> Agree(items[i], others[j], key)
  }

  /** Under any other key it is equality of the forms, position by position. */
  lemma AgreeInPlace(a: Json, b: Json, key: Option<string>, s: seq<Json>, t: seq<Json>)
    requires a.List? && b.List? && !Unordered(key) && |s| == |a.items| && |t| == |b.items|
    requires forall i: nat, j: nat | i < |s| && j < |t| :: Decides(s, t, a.items, b.items, key, i, j)
    ensures Agree(a, b, key) <==> s == t
  {
    if |s| == |t| {
      forall i: nat | i < |s| ensures s[i] == t[i] <==> Agree(a.items[i], b.items[i], key) {
        assert Decides(s, t, a.items, b.items, key, i, i);
      }
    }
  }

  lemma MatchingAgrees(a: Json, b: Json, key: Option<string>, s: seq<Json>, t: seq<Json>, p: seq<nat>)
    requires a.List? && b.List? && Unordered(key) && |s| == |a.items| && |t| == |b.items| && Matches(s, t, p)
    requires forall i: nat, j: nat | i < |s| && j < |t| :: Decides(s, t, a.items, b.items, key, i, j)
    ensures Agree(a, b, key)
  {
    forall i | 0 <= i < |a.items| ensures Agree(a.items[i], b.items[p[i]], key) {
      assert Decides(s, t, a.items, b.items, key, i, p[i]);
    }
  }

  lemma AgreementMatches(a: Json, b: Json, key: Option<string>, s: seq<Json>, t: seq<Json>) returns (p: seq<nat>)
    requires a.List? && b.List? && Unordered(key) && |s| == |a.items| && |t| == |b.items| && Agree(a, b, key)
    requires forall i: nat, j: nat | i < |s| && j < |t| :: Decides(s, t, a.items, b.items, key, i, j)
    ensures Matches(s, t, p)
  {
    p :| Permutation(p, |a.items|) && forall i | 0 <= i < |a.items| :: Agree(a.items[i], b.items[p[i]], key);
    forall i | 0 <= i < |s| ensures s[i] == t[p[i]] {
      assert Decides(s, t, a.items, b.items, key, i, p[i]);
    }
  }

  /** Under an unordered key, agreement of two lists is equality of the multisets of their forms. */
  lemma AgreeUpToOrder(a: Json, b: Json, key: Option<string>, s: seq<Json>, t: seq<Json>)
    requires a.List? && b.List? && Unordered(key) && |s| == |a.items| && |t| == |b.items|
    requires forall i: nat, j: nat | i < |s| && j < |t| :: Decides(s, t, a.items, b.items, key, i, j)
    ensures Agree(a, b, key) <==> multiset(s) == multiset(t)
  {
    if multiset(s) == multiset(t) {
      var p := SameMultisetMatches(s, t);
      MatchingAgrees(a, b, key, s, t, p);
    }
    if Agree(a, b, key) {
      var p := AgreementMatches(a, b, key, s, t);
      MatchesSameMultiset(s, t, p);
    }
  }

  // ---------------------------------------------------------------- agreement is an equivalence

  lemma {:induction false} AgreeSelf(a: Json, key: Option<string>)
    ensures Agree(a, a, key)
    decreases a
  {
    if a.Dict? {
      forall name | name in a.fields ensures Agree(a.fields[name], a.fields[name], Some(name)) {
        AgreeSelf(a.fields[name], Some(name));
      }
    } else if a.List? {
      forall i | 0 <= i < |a.items| ensures Agree(a.items[i], a.items[i], key) { AgreeSelf(a.items[i], key); }
      var p := Identity(|a.items|);
      IdentityIsPermutation(|a.items|);
      assert forall i | 0 <= i < |a.items| :: Agree(a.items[i], a.items[p[i]], key);
    }
  }

  lemma {:induction false} AgreeSymmetric(a: Json, b: Json, key: Option<string>)
    requires Agree(a, b, key)
    ensures Agree(b, a, key)
    decreases a
  {
    if a.Dict? {
      forall name | name in a.fields ensures Agree(b.fields[name], a.fields[name], Some(name)) {
        AgreeSymmetric(a.fields[name], b.fields[name], Some(name));
      }
    } else if a.List? && Unordered(key) {
      var n := |a.items|;
      var p :| Permutation(p, n) && forall i | 0 <= i < n :: Agree(a.items[i], b.items[p[i]], key);
      var q := Inverse(p, n);
      forall i | 0 <= i < n ensures Agree(b.items[i], a.items[q[i]], key) {
        AgreeSymmetric(a.items[q[i]], b.items[p[q[i]]], key);
      }
    } else if a.List? {
      forall i | 0 <= i < |a.items| ensures Agree(b.items[i], a.items[i], key) {
        AgreeSymmetric(a.items[i], b.items[i], key);
      }
    }
  }

  lemma {:induction false} AgreeTransitive(a: Json, b: Json, c: Json, key: Option<string>)
    requires Agree(a, b, key) && Agree(b, c, key)
    ensures Agree(a, c, key)
    decreases a
  {
    if a.Dict? {
      forall name | name in a.fields ensures Agree(a.fields[name], c.fields[name], Some(name)) {
        AgreeTransitive(a.fields[name], b.fields[name], c.fields[name], Some(name));
      }
    } else if a.List? && Unordered(key) {
      var n := |a.items|;
      var p :| Permutation(p, n) && forall i | 0 <= i < n :: Agree(a.items[i], b.items[p[i]], key);
      var q :| Permutation(q, n) && forall i | 0 <= i < n :: Agree(b.items[i], c.items[q[i]], key);
      var r := Composition(p, q, n);
      forall i | 0 <= i < n ensures Agree(a.items[i], c.items[r[i]], key) {
        AgreeTransitive(a.items[i], b.items[p[i]], c.items[q[p[i]]], key);
      }
    } else if a.List? {
      forall i | 0 <= i < |a.items| ensures Agree(a.items[i], c.items[i], key) {
        AgreeTransitive(a.items[i], b.items[i], c.items[i], key);
      }
    }
  }

  /** The agreement the normal form decides is an equivalence. */
  lemma AgreeIsEquivalence(a: Json, b: Json, c: Json, key: Option<string>)
    ensures Agree(a, a, key)
    ensures Agree(a, b, key) ==> Agree(b, a, key)
    ensures Agree(a, b, key) && Agree(b, c, key) ==> Agree(a, c, key)
  {
    AgreeSelf(a, key);
    if Agree(a, b, key) { AgreeSymmetric(a, b, key); }
    if Agree(a, b, key) && Agree(b, c, key) { AgreeTransitive(a, b, c, key); }
  }

  // ---------------------------------------------------------------- the form is a fixed point

  /** A normal form is its own normal form, so every value agrees with its normal form. */
  lemma {:induction false} SemanticIdempotent(dumps: Json -> string, v: Json, key: Option<string>)
    requires Faithful(dumps)
    ensures Semantic(dumps, Semantic(dumps, v, key), key) == Semantic(dumps, v, key)
    decreases v
  {
    match v {
      case Dict(fields) =>
        var m := Semantic(dumps, v, key).fields;
        forall name | name in fields ensures Semantic(dumps, m[name], Some(name)) == m[name] {
          SemanticIdempotent(dumps, fields[name], Some(name));
        }
        assert Semantic(dumps, Dict(m), key).fields == m;
      case List(items) =>
        var forms := Forms(dumps, items, key);
        forall i | 0 <= i < |forms| ensures Semantic(dumps, forms[i], key) == forms[i] {
          SemanticIdempotent(dumps, items[i], key);
        }
        NormalListFixed(dumps, forms, key);
      case _ =>
    }
  }

  /** A list of normal forms, sorted or not, is left alone. */
  lemma NormalListFixed(dumps: Json -> string, forms: seq<Json>, key: Option<string>)
    requires Faithful(dumps) && forall i | 0 <= i < |forms| :: Semantic(dumps, forms[i], key) == forms[i]
    ensures var out := if Unordered(key) then Sort(ByDump(dumps), forms) else forms;
            Semantic(dumps, List(out), key) == List(out)
  {
    if Unordered(key) {
      var out := Sort(ByDump(dumps), forms);
      DumpOrder(dumps);
      SortSorts(ByDump(dumps), forms);
      FormsFixed(dumps, forms, out, key);
      SortSorts(ByDump(dumps), out);
      SortedUnique(ByDump(dumps), Sort(ByDump(dumps), out), out);
    } else {
      assert Forms(dumps, forms, key) == forms;
    }
  }

  lemma FormsFixed(dumps: Json -> string, forms: seq<Json>, out: seq<Json>, key: Option<string>)
    requires multiset(forms) == multiset(out)
    requires forall i | 0 <= i < |forms| :: Semantic(dumps, forms[i], key) == forms[i]
    ensures Forms(dumps, out, key) == out
  {
    forall i | 0 <= i < |out| ensures Semantic(dumps, out[i], key) == out[i] {
      assert out[i] in multiset(out) && out[i] in multiset(forms);
    }
  }

  // ---------------------------------------------------------------- the keys

  /** The eleven keys whose lists are unordered and the three whose scalars are volatile. */
  lemma KeysExactly(key: string)
    ensures Unordered(Some(key))
       <==> || key == "results" || key == "relationship_candidates" || key == "ucc_evidence" || key == "fd_evidence"
            || key == "inclusion_dependencies" || key == "artifacts" || key == "evidence_refs"
            || key == "input_batch_ids" || key == "table_ids" || key == "selected_table_ids" || key == "requested_kinds"
    ensures Volatile(Some(key)) <==> key == "created_at" || key == "content_hash" || key == "artifact_location"
    ensures !Unordered(None) && !Volatile(None)
  {}
}
