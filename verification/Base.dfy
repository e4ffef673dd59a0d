/** Shared vocabulary: optional values, decoded JSON, and a few facts about sequences. */
module Base {

  datatype Option<+T> = None | Some(value: T)

  /** A decoded JSON value: what Go's `any` holds after encoding/json. A nil `any` is Null. */
  datatype Json =
    | Null
    | Bool(flag: bool)
    | Num(num: real)
    | Str(str: string)
    | Arr(items: seq<Json>)
    | Obj(fields: map<string, Json>)

  type Answers = map<string, Json>

  /** Indexing a Go map: a missing key reads as nil. */
  function Lookup(m: map<string, Json>, key: string): Json {
    if key in m then m[key] else Null
  }

  lemma AnElement<T>(s: set<T>) returns (x: T)
    requires s != {}
    ensures x in s
  {
    x :| x in s;
  }

  predicate Distinct<T(==)>(xs: seq<T>) {
    forall i, j :: 0 <= i < j < |xs| ==> xs[i] != xs[j]
  }

  function ToSet<T(==)>(xs: seq<T>): set<T> {
    set x | x in xs
  }

  /** Counting a set of seen values against a length decides distinctness exactly. */
  lemma {:induction false} SetSizeDecidesDistinct<T>(xs: seq<T>)
    ensures |ToSet(xs)| <= |xs|
    ensures |ToSet(xs)| == |xs| <==> Distinct(xs)
  {
    if xs == [] {
    } else {
      var n := |xs| - 1;
      var init, last := xs[..n], xs[n];
      SetSizeDecidesDistinct(init);
      assert ToSet(xs) == ToSet(init) + {last};
      if last in init {
        var k :| 0 <= k < n && xs[k] == last;
        assert ToSet(xs) == ToSet(init);
        assert !Distinct(xs);
      } else if Distinct(init) {
        assert Distinct(xs);
      } else {
        assert !Distinct(xs);
      }
    }
  }
}
