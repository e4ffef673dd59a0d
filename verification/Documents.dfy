/** Schema documents as decoded JSON objects: stamping a version and comparing content. */
module Documents {
  import opened Base

  type Doc = map<string, Json>

  const VERSION := "version"

  function Stamp(d: Doc, v: int): Doc {
    d[VERSION := Num(v as real)]
  }

  /** Equal on every top-level field but the version. */
  ghost predicate SameContent(a: Doc, b: Doc) {
    forall k :: k != VERSION ==> (k in a <==> k in b) && (k in a ==> a[k] == b[k])
  }

  method SchemaEqualIgnoringVersion(a: Doc, b: Doc) returns (same: bool)
    ensures same == SameContent(a, b)
  {
    var ma, mb := a, b;
    ma := ma - {VERSION};
    mb := mb - {VERSION};
    same := ma == mb;
    assert forall k :: k != VERSION ==> (k in ma <==> k in a) && (k in mb <==> k in b);
    assert SameContent(a, b) ==> ma.Keys == mb.Keys;
  }

  method StampVersion(schema: Doc, v: int) returns (stamped: Doc)
    ensures VERSION in stamped && stamped[VERSION] == Num(v as real) && SameContent(stamped, schema)
    ensures stamped == Stamp(schema, v)
  {
    stamped := schema;
    stamped := stamped["version" := Num(v as real)];
  }

  lemma SameContentEquivalence(a: Doc, b: Doc, c: Doc)
    ensures SameContent(a, a)
    ensures SameContent(a, b) ==> SameContent(b, a)
    ensures SameContent(a, b) && SameContent(b, c) ==> SameContent(a, c)
  {
  }

  /** Content is what is left once both documents carry the same version. */
  lemma SameContentIffStampsEqual(a: Doc, b: Doc, v: int)
    ensures SameContent(a, b) <==> Stamp(a, v) == Stamp(b, v)
  {
    var sa, sb := Stamp(a, v), Stamp(b, v);
    assert forall k :: k != VERSION ==> (k in sa <==> k in a) && (k in sb <==> k in b);
    assert forall k :: k != VERSION && k in a ==> sa[k] == a[k];
    assert forall k :: k != VERSION && k in b ==> sb[k] == b[k];
    if SameContent(a, b) {
      assert sa.Keys == sb.Keys;
    }
  }

  lemma StampOverwrites(d: Doc, v: int, w: int)
    ensures Stamp(Stamp(d, v), w) == Stamp(d, w)
    ensures SameContent(Stamp(d, v), d)
  {
  }

  /** A draft is unchanged against a snapshot stamped v iff stamping it v gives that snapshot. */
  lemma UnchangedIffStamped(draft: Doc, snapshot: Doc, v: int)
    requires snapshot == Stamp(snapshot, v)
    ensures SameContent(draft, snapshot) <==> Stamp(draft, v) == snapshot
  {
  }
}
