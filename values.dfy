/** Python-level values the client passes around: scalars, dict updates,
    decoded JSON, and the exceptions its operations raise. */
module Values {
  import opened Strings

  datatype Option<+T> = None | Some(value: T)

  /** The exceptions raised by the client, by kind. */
  datatype Error =
    | MissingRequiredField(field: string)   // "Missing required field: <field>"
    | ControlNotFound(name: string)         // mechanize ControlNotFoundError
    | FormNotFound(action: string)          // mechanize FormNotFoundError
    | NoFormSelected                        // a form access before select_form
    | ControlTypeMismatch(name: string)     // a list control given a string, or a text control a list
    | HttpError(code: int)                  // urllib HTTPError
    | KeyError(key: string)                 // a missing key of a caller's dict
    | IndexError                            // e.g. `split(":")[1]` with no ':'
    | AttributeError                        // `.encode` on a non-string
    | UnableToPostEdit                      // Exception("unable to post edit")
    | MalformedJson                         // Exception("unable to parse response as JSON")
    | JsonShapeError                        // TypeError/IndexError/KeyError while reading a JSON reply
    | MissingRelationshipId(action: string) // "Can't <action> relationship: no Id has been provided"

  /** The result of a Python call: a returned value or a raised exception. */
  datatype Outcome<+T> = Ok(value: T) | Raised(error: Error)

  /** A Python scalar as found in the caller's dicts: None, a bool, a str or an int. */
  datatype Scalar = Null | Bool(b: bool) | Str(s: string) | Int(i: int)

  /** Python truthiness of a scalar. */
  predicate Truthy(v: Scalar) {
    match v
    case Null => false
    case Bool(b) => b
    case Str(s) => s != ""
    case Int(i) => i != 0
  }

  /** Python's `str(v)`. */
  function ToStr(v: Scalar): string {
    match v
    case Null => "None"
    case Bool(b) => if b then "True" else "False"
    case Str(s) => s
    case Int(i) => IntStr(i)
  }

  /** A JSON document as Python's `json.load` returns it. */
  datatype Json =
    | JNull
    | JBool(b: bool)
    | JNum(n: int)
    | JStr(s: string)
    | JArr(items: seq<Json>)
    | JObj(fields: map<string, Json>)

  // ---- dict updates --------------------------------------------------------

  /** `d[k] = v` for each pair in order, as a `for` loop or `dict.update`
      over a sequence of pairs does: later pairs overwrite earlier ones. */
  function PutAll<K, V>(m: map<K, V>, ps: seq<(K, V)>): map<K, V>
    decreases |ps|
  {
    if ps == [] then m
    else PutAll(m, ps[..|ps| - 1])[ps[|ps| - 1].0 := ps[|ps| - 1].1]
  }

  predicate HasKey<K(==), V>(ps: seq<(K, V)>, k: K) {
    exists i :: 0 <= i < |ps| && ps[i].0 == k
  }

  /** Updating with `a` then with `b` is updating with `a + b`. */
  lemma {:induction false} PutAllAppend<K, V>(m: map<K, V>, a: seq<(K, V)>, b: seq<(K, V)>)
    ensures PutAll(m, a + b) == PutAll(PutAll(m, a), b)
    decreases |b|
  {
    if b != [] {
      var b' := b[..|b| - 1];
      assert (a + b)[..|a + b| - 1] == a + b';
      PutAllAppend(m, a, b');
    } else {
      assert a + b == a;
    }
  }

  /** The keys after the updates are the old keys plus every key written. */
  lemma {:induction false} PutAllKeys<K, V>(m: map<K, V>, ps: seq<(K, V)>, k: K)
    ensures k in PutAll(m, ps) <==> k in m || HasKey(ps, k)
    decreases |ps|
  {
    if ps != [] {
      var ps' := ps[..|ps| - 1];
      PutAllKeys(m, ps', k);
      if HasKey(ps', k) {
        var i :| 0 <= i < |ps'| && ps'[i].0 == k;
        assert ps[i].0 == k;
      }
      if HasKey(ps, k) && ps[|ps| - 1].0 != k {
        var i :| 0 <= i < |ps| && ps[i].0 == k;
        assert ps'[i].0 == k;
      }
    }
  }

  /** A key no pair writes keeps its old value. */
  lemma {:induction false} PutAllUntouched<K, V>(m: map<K, V>, ps: seq<(K, V)>, k: K)
    requires k in m && !HasKey(ps, k)
    ensures k in PutAll(m, ps) && PutAll(m, ps)[k] == m[k]
    decreases |ps|
  {
    if ps != [] {
      var ps' := ps[..|ps| - 1];
      assert !HasKey(ps', k) by {
        forall i | 0 <= i < |ps'| ensures ps'[i].0 != k {
          assert ps'[i] == ps[i];
        }
      }
      PutAllUntouched(m, ps', k);
    }
  }

  /** The last write of a key wins: pair `i` survives when no later pair
      writes the same key. */
  lemma {:induction false} PutAllLastWins<K, V>(m: map<K, V>, ps: seq<(K, V)>, i: nat)
    requires i < |ps|
    requires forall j :: i < j < |ps| ==> ps[j].0 != ps[i].0
    ensures ps[i].0 in PutAll(m, ps) && PutAll(m, ps)[ps[i].0] == ps[i].1
    decreases |ps|
  {
    if i < |ps| - 1 {
      PutAllLastWins(m, ps[..|ps| - 1], i);
    }
  }
}
