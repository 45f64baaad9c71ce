/** `create_payload`: flattening a field template into the flat form map the
    server's HTML forms expect, with keys `prefix.field`, `prefix.field.i`
    and `prefix.field.i.sub`. */
module Payload {
  import opened Strings
  import opened Values

  /** An element of a list-valued template field: a str, a dict (its items
      in order), or anything else (an int, None, a nested list, ...). */
  datatype Elem = EStr(s: string) | EDict(entries: seq<(string, Scalar)>) | EOther

  /** A template value: a scalar (`Scalar(Null)` is Python's None) or a list. */
  datatype Value = Scalar(v: Scalar) | List(elems: seq<Elem>)

  /** A template is a dict; its items in iteration order. */
  type Template = seq<(string, Value)>

  type FlatPayload = map<string, Scalar>

  function Path(prefix: string, field: string): string {
    prefix + "." + field
  }

  /** The assignments one list element contributes, at list index `i`. */
  function ElemPairs(path: string, i: nat, e: Elem): seq<(string, Scalar)> {
    match e
    case EStr(s) => [(path + "." + NatStr(i), Str(s))]
    case EDict(es) => DictPairs(path + "." + NatStr(i), es)
    case EOther => []
  }

  /** The assignments a dict element stored under `path` contributes. */
  function DictPairs(path: string, es: seq<(string, Scalar)>): seq<(string, Scalar)> {
    seq(|es|, k requires 0 <= k < |es| => (path + "." + es[k].0, es[k].1))
  }

  /** The assignments a whole list contributes, element by element. */
  function ListPairs(path: string, es: seq<Elem>): seq<(string, Scalar)>
    decreases |es|
  {
    if es == [] then []
    else ListPairs(path, es[..|es| - 1]) + ElemPairs(path, |es| - 1, es[|es| - 1])
  }

  /** The assignments one template entry contributes; None contributes none. */
  function EntryPairs(prefix: string, field: string, v: Value): seq<(string, Scalar)> {
    match v
    case Scalar(x) => if x == Null then [] else [(Path(prefix, field), x)]
    case List(es) => ListPairs(Path(prefix, field), es)
  }

  /** Every assignment the template asks for, in the order they are made. */
  function AllPairs(t: Template, prefix: string): seq<(string, Scalar)>
    decreases |t|
  {
    if t == [] then []
    else AllPairs(t[..|t| - 1], prefix) + EntryPairs(prefix, t[|t| - 1].0, t[|t| - 1].1)
  }

  /** Entry `j` is None and its prefixed key is listed as required. */
  predicate MissingAt(t: Template, prefix: string, required: seq<string>, j: int) {
    0 <= j < |t| && t[j].1 == Scalar(Null) && Path(prefix, t[j].0) in required
  }

  /** What `create_payload` computes, entry by entry: the payload, or the
      exception raised at the first None entry whose prefixed key is required. */
  function Flatten(t: Template, prefix: string, required: seq<string>): Outcome<FlatPayload>
    decreases |t|
  {
    if t == [] then Ok(map[])
    else
      match Flatten(t[..|t| - 1], prefix, required)
      case Raised(e) => Raised(e)
      case Ok(m) =>
        var (field, v) := t[|t| - 1];
        if v == Scalar(Null) && Path(prefix, field) in required
        then Raised(MissingRequiredField(Path(prefix, field)))
        else Ok(PutAll(m, EntryPairs(prefix, field, v)))
  }

  /** create_payload(template, prefix, required_fields), building the dict in place. */
  method CreatePayload(template: Template, prefix: string, required: seq<string>)
    returns (r: Outcome<FlatPayload>)
    ensures r == Flatten(template, prefix, required)
  {
    var payload: FlatPayload := map[];
    var n := 0;
    while n < |template|
      invariant 0 <= n <= |template|
      invariant Flatten(template[..n], prefix, required) == Ok(payload)
    {
      var (field, value) := template[n];
      var key := prefix + "." + field;
      ghost var before := payload;
      if value == Scalar(Null) {
        if key in required {
          r := Raised(MissingRequiredField(key));
          FlattenRaisesAt(template, prefix, required, n, before);
          return;
        }
        FlattenStep(template, prefix, required, n, before, before);
      } else if value.List? {
        payload := PutList(payload, key, value.elems);
        FlattenStep(template, prefix, required, n, before, payload);
      } else {
        payload := payload[key := value.v];
        FlattenStep(template, prefix, required, n, before, payload);
      }
      n := n + 1;
    }
    assert template[..n] == template;
    r := Ok(payload);
  }

  /** The `enumerate(value)` loop of a list entry stored under `path`. */
  method PutList(payload: FlatPayload, path: string, es: seq<Elem>) returns (r: FlatPayload)
    ensures r == PutAll(payload, ListPairs(path, es))
  {
    r := payload;
    var i := 0;
    while i < |es|
      invariant 0 <= i <= |es|
      invariant r == PutAll(payload, ListPairs(path, es[..i]))
    {
      ListPairsStep(path, es, i);
      PutAllAppend(payload, ListPairs(path, es[..i]), ElemPairs(path, i, es[i]));
      ghost var mid := r;
      match es[i] {
      case EStr(s) =>
        r := r[path + "." + NatStr(i) := Str(s)];
        assert ElemPairs(path, i, es[i])[..0] == [];
      case EDict(entries) =>
        r := PutDict(r, path + "." + NatStr(i), entries);
      case EOther =>
      }
      assert r == PutAll(mid, ElemPairs(path, i, es[i]));
      i := i + 1;
    }
    assert es[..i] == es;
  }

  lemma ListPairsStep(path: string, es: seq<Elem>, i: nat)
    requires i < |es|
    ensures ListPairs(path, es[..i + 1]) == ListPairs(path, es[..i]) + ElemPairs(path, i, es[i])
  {
    assert es[..i + 1][..i] == es[..i];
  }

  /** The `value_in_list.items()` loop of a dict element stored under `path`. */
  method PutDict(payload: FlatPayload, path: string, entries: seq<(string, Scalar)>) returns (r: FlatPayload)
    ensures r == PutAll(payload, DictPairs(path, entries))
  {
    ghost var ps := DictPairs(path, entries);
    r := payload;
    var k := 0;
    while k < |entries|
      invariant 0 <= k <= |entries|
      invariant r == PutAll(payload, ps[..k])
    {
      var (sub, v) := entries[k];
      assert ps[..k + 1][..k] == ps[..k];
      r := r[path + "." + sub := v];
      k := k + 1;
    }
    assert ps[..k] == ps;
  }

  /** What one more entry, when it is not a missing required field, does to
      the payload: nothing for None, its element assignments for a list, a
      copy of the value otherwise. */
  predicate EntryDone(prefix: string, field: string, v: Value, m: FlatPayload, m': FlatPayload) {
    match v
    case Scalar(x) => if x == Null then m' == m else m' == m[prefix + "." + field := x]
    case List(es) => m' == PutAll(m, ListPairs(prefix + "." + field, es))
  }

  lemma EntryDonePairs(prefix: string, field: string, v: Value, m: FlatPayload, m': FlatPayload)
    requires EntryDone(prefix, field, v, m, m')
    ensures m' == PutAll(m, EntryPairs(prefix, field, v))
  {
    if v.Scalar? && v.v != Null {
      assert EntryPairs(prefix, field, v)[..0] == [];
    }
  }

  lemma FlattenStep(t: Template, prefix: string, required: seq<string>, n: nat, m: FlatPayload, m': FlatPayload)
    requires n < |t| && Flatten(t[..n], prefix, required) == Ok(m)
    requires !(t[n].1 == Scalar(Null) && Path(prefix, t[n].0) in required)
    requires EntryDone(prefix, t[n].0, t[n].1, m, m')
    ensures Flatten(t[..n + 1], prefix, required) == Ok(m')
  {
    EntryDonePairs(prefix, t[n].0, t[n].1, m, m');
    assert t[..n + 1][..n] == t[..n];
    assert t[..n + 1][n] == t[n];
  }

  lemma FlattenRaisesAt(t: Template, prefix: string, required: seq<string>, n: nat, m: FlatPayload)
    requires n < |t| && Flatten(t[..n], prefix, required) == Ok(m)
    requires t[n].1 == Scalar(Null) && prefix + "." + t[n].0 in required
    ensures Flatten(t, prefix, required) == Raised(MissingRequiredField(prefix + "." + t[n].0))
  {
    assert t[..n + 1][..n] == t[..n];
    assert t[..n + 1][n] == t[n];
    FlattenStopsAt(t, prefix, required, n + 1);
  }

  /** Once an exception is raised, later entries do not matter. */
  lemma {:induction false} FlattenStopsAt(t: Template, prefix: string, required: seq<string>, n: nat)
    requires n <= |t| && Flatten(t[..n], prefix, required).Raised?
    ensures Flatten(t, prefix, required) == Flatten(t[..n], prefix, required)
    decreases |t| - n
  {
    if n < |t| {
      assert t[..n + 1][..n] == t[..n];
      FlattenStopsAt(t, prefix, required, n + 1);
    } else {
      assert t[..n] == t;
    }
  }

  // ---- required fields -------------------------------------------------------

  /** The payload is refused exactly when some None entry has its prefixed
      key in `required`, and the exception names the first such key. */
  lemma {:induction false} FlattenRaisesIff(t: Template, prefix: string, required: seq<string>)
    ensures Flatten(t, prefix, required).Raised? <==> exists j :: MissingAt(t, prefix, required, j)
    ensures Flatten(t, prefix, required).Raised? ==>
      exists j :: MissingAt(t, prefix, required, j)
        && (forall j' :: 0 <= j' < j ==> !MissingAt(t, prefix, required, j'))
        && Flatten(t, prefix, required).error == MissingRequiredField(Path(prefix, t[j].0))
    decreases |t|
  {
    if t != [] {
      var t' := t[..|t| - 1];
      FlattenRaisesIff(t', prefix, required);
      forall j | 0 <= j < |t'| ensures MissingAt(t', prefix, required, j) == MissingAt(t, prefix, required, j) {
        assert t'[j] == t[j];
      }
      if Flatten(t', prefix, required).Raised? {
        var j :| MissingAt(t', prefix, required, j)
          && (forall j' :: 0 <= j' < j ==> !MissingAt(t', prefix, required, j'))
          && Flatten(t', prefix, required).error == MissingRequiredField(Path(prefix, t'[j].0));
        assert MissingAt(t, prefix, required, j);
      } else if MissingAt(t, prefix, required, |t| - 1) {
        assert forall j' :: 0 <= j' < |t| - 1 ==> !MissingAt(t, prefix, required, j');
      } else {
        assert forall j :: 0 <= j < |t| ==> !MissingAt(t, prefix, required, j) by {
          forall j | 0 <= j < |t| ensures !MissingAt(t, prefix, required, j) {
            if j < |t| - 1 { assert MissingAt(t', prefix, required, j) == MissingAt(t, prefix, required, j); }
          }
        }
      }
    }
  }

  /** The area operations list "name" unprefixed while the check compares
      the prefixed key, so under the "edit-area" prefix no entry is ever
      required: a None name is silently left out rather than refused. */
  lemma AreaNameNeverRequired(t: Template)
    ensures Flatten(t, "edit-area", ["name"]).Ok?
  {
    FlattenRaisesIff(t, "edit-area", ["name"]);
    forall j | 0 <= j < |t| ensures !MissingAt(t, "edit-area", ["name"], j) {
      assert |Path("edit-area", t[j].0)| >= 10;
    }
  }

  /** A None entry whose key is not required can be dropped from the template
      without changing the outcome. */
  lemma NoneOptionalIgnored(t: Template, prefix: string, required: seq<string>, j: nat)
    requires j < |t| && t[j].1 == Scalar(Null) && Path(prefix, t[j].0) !in required
    ensures Flatten(t[..j] + t[j + 1..], prefix, required) == Flatten(t, prefix, required)
  {
    var u := t[..j] + t[j + 1..];
    NoneOptionalIgnoredUpTo(t, prefix, required, j, |t|);
    assert u[..|t| - 1] == u;
    assert t[..|t|] == t;
  }

  lemma {:induction false} NoneOptionalIgnoredUpTo(t: Template, prefix: string, required: seq<string>, j: nat, n: nat)
    requires j < n <= |t| && t[j].1 == Scalar(Null) && Path(prefix, t[j].0) !in required
    ensures Flatten((t[..j] + t[j + 1..])[..n - 1], prefix, required) == Flatten(t[..n], prefix, required)
    decreases n
  {
    var u := t[..j] + t[j + 1..];
    if n == j + 1 {
      assert u[..n - 1] == t[..j];
      assert t[..n][..j] == t[..j];
      assert EntryPairs(prefix, t[j].0, t[j].1) == [];
    } else {
      NoneOptionalIgnoredUpTo(t, prefix, required, j, n - 1);
      assert u[..n - 1][..n - 2] == u[..n - 2];
      assert t[..n][..n - 1] == t[..n - 1];
      assert u[..n - 1][n - 2] == t[..n][n - 1];
      FlattenSameLast(u[..n - 1], t[..n], prefix, required);
    }
  }

  /** Flatten looks only at the entries before the last and the last one. */
  lemma FlattenSameLast(a: Template, b: Template, prefix: string, required: seq<string>)
    requires |a| > 0 && |b| > 0 && a[|a| - 1] == b[|b| - 1]
    requires Flatten(a[..|a| - 1], prefix, required) == Flatten(b[..|b| - 1], prefix, required)
    ensures Flatten(a, prefix, required) == Flatten(b, prefix, required)
  {
  }

  // ---- what the payload holds ------------------------------------------------

  /** A successful payload holds exactly the template's assignments, made in
      order (a later assignment to the same key wins). */
  lemma {:induction false} FlattenContent(t: Template, prefix: string, required: seq<string>)
    requires Flatten(t, prefix, required).Ok?
    ensures Flatten(t, prefix, required).value == PutAll(map[], AllPairs(t, prefix))
    decreases |t|
  {
    if t != [] {
      var t' := t[..|t| - 1];
      FlattenContent(t', prefix, required);
      PutAllAppend(map[], AllPairs(t', prefix), EntryPairs(prefix, t[|t| - 1].0, t[|t| - 1].1));
    }
  }

  /** Every key of a successful payload begins with `prefix + "."`, and every
      key begins that way only because some assignment made it. */
  lemma FlattenKeys(t: Template, prefix: string, required: seq<string>, k: string)
    requires Flatten(t, prefix, required).Ok?
    ensures k in Flatten(t, prefix, required).value <==> HasKey(AllPairs(t, prefix), k)
    ensures k in Flatten(t, prefix, required).value ==> StartsWith(k, prefix + ".")
  {
    FlattenContent(t, prefix, required);
    PutAllKeys(map[], AllPairs(t, prefix), k);
    AllPairsPrefixed(t, prefix);
  }

  predicate KeyedUnder(ps: seq<(string, Scalar)>, pre: string) {
    forall i :: 0 <= i < |ps| ==> StartsWith(ps[i].0, pre)
  }

  lemma StartsWithJoin(a: string, b: string, c: string)
    ensures StartsWith(a + b + c, a)
  {
    assert (a + b + c)[..|a|] == a;
  }

  lemma {:induction false} ListPairsKeyed(path: string, es: seq<Elem>)
    ensures KeyedUnder(ListPairs(path, es), path)
    decreases |es|
  {
    if es != [] {
      ListPairsKeyed(path, es[..|es| - 1]);
      var i := |es| - 1;
      var ep := ElemPairs(path, i, es[i]);
      forall k | 0 <= k < |ep| ensures StartsWith(ep[k].0, path) {
        match es[i]
        case EStr(s) => StartsWithJoin(path, ".", NatStr(i));
        case EDict(d) => StartsWithJoin(path, ".", NatStr(i) + "." + d[k].0);
          assert path + "." + NatStr(i) + "." + d[k].0 == path + "." + (NatStr(i) + "." + d[k].0);
      }
    }
  }

  lemma {:induction false} AllPairsPrefixed(t: Template, prefix: string)
    ensures KeyedUnder(AllPairs(t, prefix), prefix + ".")
    decreases |t|
  {
    if t != [] {
      AllPairsPrefixed(t[..|t| - 1], prefix);
      var (f, v) := t[|t| - 1];
      var ep := EntryPairs(prefix, f, v);
      var path := Path(prefix, f);
      StartsWithJoin(prefix + ".", f, "");
      assert prefix + "." + f + "" == path;
      if v.List? {
        ListPairsKeyed(path, v.elems);
        forall k | 0 <= k < |ep| ensures StartsWith(ep[k].0, prefix + ".") {
          assert ep[k].0[..|path|] == path;
          assert ep[k].0[..|prefix| + 1] == path[..|prefix| + 1];
        }
      }
    }
  }

  // ---- where each entry's assignments sit --------------------------------------

  lemma {:induction false} ListPairsGrow(path: string, es: seq<Elem>, n: nat)
    requires n <= |es|
    ensures |ListPairs(path, es[..n])| <= |ListPairs(path, es)|
    ensures ListPairs(path, es)[..|ListPairs(path, es[..n])|] == ListPairs(path, es[..n])
    decreases |es| - n
  {
    if n < |es| {
      ListPairsGrow(path, es, n + 1);
      var small := ListPairs(path, es[..n]);
      var big := ListPairs(path, es[..n + 1]);
      assert es[..n + 1][..n] == es[..n];
      assert big == small + ElemPairs(path, n, es[n]);
      var all := ListPairs(path, es);
      assert all[..|small|] == all[..|big|][..|small|];
    } else {
      assert es[..n] == es;
    }
  }

  /** Element `i`'s assignments sit, in order, where list element `i` ends up. */
  lemma ListPairsAt(path: string, es: seq<Elem>, i: nat, k: nat) returns (at: nat)
    requires i < |es| && k < |ElemPairs(path, i, es[i])|
    ensures at < |ListPairs(path, es)|
    ensures ListPairs(path, es)[at] == ElemPairs(path, i, es[i])[k]
  {
    var pre := ListPairs(path, es[..i]);
    var ep := ElemPairs(path, i, es[i]);
    assert es[..i + 1][..i] == es[..i];
    assert ListPairs(path, es[..i + 1]) == pre + ep;
    ListPairsGrow(path, es, i + 1);
    var all := ListPairs(path, es);
    at := |pre| + k;
    assert all[at] == all[..|pre + ep|][at];
  }

  lemma {:induction false} AllPairsGrow(t: Template, prefix: string, n: nat)
    requires n <= |t|
    ensures |AllPairs(t[..n], prefix)| <= |AllPairs(t, prefix)|
    ensures AllPairs(t, prefix)[..|AllPairs(t[..n], prefix)|] == AllPairs(t[..n], prefix)
    decreases |t| - n
  {
    if n < |t| {
      AllPairsGrow(t, prefix, n + 1);
      var small := AllPairs(t[..n], prefix);
      var big := AllPairs(t[..n + 1], prefix);
      assert t[..n + 1][..n] == t[..n];
      assert big == small + EntryPairs(prefix, t[n].0, t[n].1);
      var all := AllPairs(t, prefix);
      assert all[..|small|] == all[..|big|][..|small|];
    } else {
      assert t[..n] == t;
    }
  }

  /** Entry `j`'s assignments sit, in order, where entry `j` ends up. */
  lemma AllPairsAt(t: Template, prefix: string, j: nat, k: nat) returns (at: nat)
    requires j < |t| && k < |EntryPairs(prefix, t[j].0, t[j].1)|
    ensures at < |AllPairs(t, prefix)|
    ensures AllPairs(t, prefix)[at] == EntryPairs(prefix, t[j].0, t[j].1)[k]
  {
    var pre := AllPairs(t[..j], prefix);
    var ep := EntryPairs(prefix, t[j].0, t[j].1);
    assert t[..j + 1][..j] == t[..j];
    assert AllPairs(t[..j + 1], prefix) == pre + ep;
    AllPairsGrow(t, prefix, j + 1);
    at := |pre| + k;
    assert AllPairs(t, prefix)[at] == (pre + ep)[at];
  }

  /** No two assignments of the template write the same key. */
  predicate KeysUnique(ps: seq<(string, Scalar)>) {
    forall i, j :: 0 <= i < j < |ps| ==> ps[i].0 != ps[j].0
  }

  /** In a payload whose assignments write distinct keys, each assignment
      is found in the payload. */
  lemma PayloadHolds(t: Template, prefix: string, required: seq<string>, m: FlatPayload, at: nat)
    requires Flatten(t, prefix, required) == Ok(m) && KeysUnique(AllPairs(t, prefix))
    requires at < |AllPairs(t, prefix)|
    ensures AllPairs(t, prefix)[at].0 in m && m[AllPairs(t, prefix)[at].0] == AllPairs(t, prefix)[at].1
  {
    FlattenContent(t, prefix, required);
    PutAllLastWins(map[], AllPairs(t, prefix), at);
  }

  /** Where pair `k` of element `i` of list entry `j` sits among all assignments. */
  lemma ListElemAt(t: Template, prefix: string, j: nat, i: nat, k: nat) returns (at: nat)
    requires j < |t| && t[j].1.List? && i < |t[j].1.elems|
    requires k < |ElemPairs(Path(prefix, t[j].0), i, t[j].1.elems[i])|
    ensures at < |AllPairs(t, prefix)|
    ensures AllPairs(t, prefix)[at] == ElemPairs(Path(prefix, t[j].0), i, t[j].1.elems[i])[k]
  {
    var path := Path(prefix, t[j].0);
    var es := t[j].1.elems;
    var inList := ListPairsAt(path, es, i, k);
    assert EntryPairs(prefix, t[j].0, t[j].1) == ListPairs(path, es);
    at := AllPairsAt(t, prefix, j, inList);
  }

  /** A scalar entry is copied unchanged to `prefix.field`. */
  lemma ScalarCopied(t: Template, prefix: string, required: seq<string>, m: FlatPayload, j: nat)
    requires Flatten(t, prefix, required) == Ok(m) && KeysUnique(AllPairs(t, prefix))
    requires j < |t| && t[j].1.Scalar? && t[j].1.v != Null
    ensures Path(prefix, t[j].0) in m && m[Path(prefix, t[j].0)] == t[j].1.v
  {
    var at := AllPairsAt(t, prefix, j, 0);
    PayloadHolds(t, prefix, required, m, at);
  }

  /** The `i`-th element of a list entry, a str, lands at `prefix.field.i`. */
  lemma ListStrExpanded(t: Template, prefix: string, required: seq<string>, m: FlatPayload, j: nat, i: nat)
    requires Flatten(t, prefix, required) == Ok(m) && KeysUnique(AllPairs(t, prefix))
    requires j < |t| && t[j].1.List? && i < |t[j].1.elems| && t[j].1.elems[i].EStr?
    ensures var key := Path(prefix, t[j].0) + "." + NatStr(i);
      key in m && m[key] == Str(t[j].1.elems[i].s)
  {
    var at := ListElemAt(t, prefix, j, i, 0);
    PayloadHolds(t, prefix, required, m, at);
  }

  /** Entry `k` of the `i`-th element of a list entry, a dict, lands at
      `prefix.field.i.sub`. */
  lemma ListDictExpanded(t: Template, prefix: string, required: seq<string>, m: FlatPayload, j: nat, i: nat, k: nat)
    requires Flatten(t, prefix, required) == Ok(m) && KeysUnique(AllPairs(t, prefix))
    requires j < |t| && t[j].1.List? && i < |t[j].1.elems| && t[j].1.elems[i].EDict?
    requires k < |t[j].1.elems[i].entries|
    ensures var (sub, v) := t[j].1.elems[i].entries[k];
      var key := Path(prefix, t[j].0) + "." + NatStr(i) + "." + sub;
      key in m && m[key] == v
  {
    var at := ListElemAt(t, prefix, j, i, k);
    PayloadHolds(t, prefix, required, m, at);
  }

  // ---- worked examples ---------------------------------------------------------
  // The examples of the function's documentation. Values are copied as they
  // are: an int stays an int and becomes text only when the payload is
  // url-encoded.

  /** A None optional entry is left out. */
  lemma ExampleOptionalNone()
    ensures Flatten([("name", Scalar(Str("X"))), ("url", Scalar(Null))], "p", ["p.name"])
      == Ok(map["p.name" := Str("X")])
  {
    var t: Template := [("name", Scalar(Str("X"))), ("url", Scalar(Null))];
    assert t[..1][..0] == [];
    assert t[..1] == [("name", Scalar(Str("X")))];
    assert EntryPairs("p", "name", Scalar(Str("X")))[..0] == [];
    assert Path("p", "name") == "p.name";
  }

  /** A None required entry is refused, naming its prefixed key. */
  lemma ExampleRequiredNone()
    ensures Flatten([("name", Scalar(Null))], "p", ["p.name"]) == Raised(MissingRequiredField("p.name"))
  {
    var t: Template := [("name", Scalar(Null))];
    assert t[..0] == [];
    assert Path("p", "name") == "p.name";
  }

  /** A one-entry template that is not refused gives that entry's assignments. */
  lemma FlattenSingle(field: string, v: Value, prefix: string, required: seq<string>)
    requires !(v == Scalar(Null) && Path(prefix, field) in required)
    ensures Flatten([(field, v)], prefix, required) == Ok(PutAll(map[], EntryPairs(prefix, field, v)))
  {
    assert [(field, v)][..0] == [];
  }

  /** Two assignments to different keys. */
  lemma PutAllTwo(k0: string, v0: Scalar, k1: string, v1: Scalar)
    ensures PutAll(map[], [(k0, v0), (k1, v1)]) == map[k0 := v0, k1 := v1]
  {
    var ps := [(k0, v0), (k1, v1)];
    assert ps[..1] == [(k0, v0)] && ps[..1][..0] == [];
    assert PutAll(map[], ps[..1]) == map[k0 := v0];
  }

  lemma StrListPairs()
    ensures ListPairs("edit-area.iso_3166_3", [EStr("ABC"), EStr("EFG")])
      == [("edit-area.iso_3166_3.0", Str("ABC")), ("edit-area.iso_3166_3.1", Str("EFG"))]
  {
    var path := "edit-area.iso_3166_3";
    var es := [EStr("ABC"), EStr("EFG")];
    assert es[..1][..0] == [] && es[..1] == [EStr("ABC")];
    assert NatStr(0) == "0" && NatStr(1) == "1";
    assert path + "." + "0" == "edit-area.iso_3166_3.0";
    assert path + "." + "1" == "edit-area.iso_3166_3.1";
  }

  /** A list of strs expands to `field.0`, `field.1`, ... */
  lemma ExampleStrList()
    ensures Flatten([("iso_3166_3", List([EStr("ABC"), EStr("EFG")]))], "edit-area", [])
      == Ok(map["edit-area.iso_3166_3.0" := Str("ABC"), "edit-area.iso_3166_3.1" := Str("EFG")])
  {
    FlattenSingle("iso_3166_3", List([EStr("ABC"), EStr("EFG")]), "edit-area", []);
    assert Path("edit-area", "iso_3166_3") == "edit-area.iso_3166_3";
    StrListPairs();
    PutAllTwo("edit-area.iso_3166_3.0", Str("ABC"), "edit-area.iso_3166_3.1", Str("EFG"));
  }

  lemma DictListPairs()
    ensures ListPairs("edit-area.url", [EDict([("text", Str("http://x")), ("link_type_id", Int(358))])])
      == [("edit-area.url.0.text", Str("http://x")), ("edit-area.url.0.link_type_id", Int(358))]
  {
    var path := "edit-area.url";
    var es := [EDict([("text", Str("http://x")), ("link_type_id", Int(358))])];
    assert es[..0] == [];
    assert NatStr(0) == "0";
    assert path + "." + "0" + "." + "text" == "edit-area.url.0.text";
    assert path + "." + "0" + "." + "link_type_id" == "edit-area.url.0.link_type_id";
  }

  /** A list of dicts expands to `field.0.sub` for each item of the dict. */
  lemma ExampleDictList()
    ensures Flatten([("url", List([EDict([("text", Str("http://x")), ("link_type_id", Int(358))])]))], "edit-area", [])
      == Ok(map["edit-area.url.0.text" := Str("http://x"), "edit-area.url.0.link_type_id" := Int(358)])
  {
    FlattenSingle("url", List([EDict([("text", Str("http://x")), ("link_type_id", Int(358))])]), "edit-area", []);
    assert Path("edit-area", "url") == "edit-area.url";
    DictListPairs();
    PutAllTwo("edit-area.url.0.text", Str("http://x"), "edit-area.url.0.link_type_id", Int(358));
  }
}
