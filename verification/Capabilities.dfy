/** Capability records and the discovery root: splitting off what is typed, folding it back. */
module Capabilities {
  import opened Json

  /** A member's name; the four names a record reserves are set apart. */
  datatype Key = Status | Since | Until | Witness | Named(name: string)

  /** A JSON value, as far as the decoders look into it. */
  datatype Node = NullNode | Str(text: string) | Obj(members: map<Key, Node>) | Opaque(literal: string)

  const RESERVED: set<Key> := {Status, Since, Until, Witness}

  datatype Record = Record(status: string, since: string, until: string, witnessClass: string, facets: map<Key, Node>)

  /** Decoding a member into a Go string: absent and null leave it empty, other types are an error. */
  function DecodeString(m: map<Key, Node>, key: Key): Option<string> {
    if key !in m || m[key].NullNode? then Some("") else if m[key].Str? then Some(m[key].text) else None
  }

  function DecodeRecord(n: Node): Option<Record> {
    if n.NullNode? then Some(Record("", "", "", "", map[]))
    else if !n.Obj? then None
    else
      var m := n.members;
      var status, since, until, witnessClass :=
        DecodeString(m, Status), DecodeString(m, Since), DecodeString(m, Until), DecodeString(m, Witness);
      if status.None? || since.None? || until.None? || witnessClass.None? then None
      else Some(Record(status.value, since.value, until.value, witnessClass.value, m - RESERVED))
  }

  function Typed(r: Record): map<Key, Node> {
    map[Status := Str(r.status), Since := Str(r.since), Witness := Str(r.witnessClass)]
    + (if r.until == "" then map[] else map[Until := Str(r.until)])
  }

  function EncodeRecord(r: Record): Node {
    Obj(r.facets + Typed(r))
  }

  // ----- The Go methods -----

  method UnmarshalRecord(n: Node) returns (r: Option<Record>)
    ensures r == DecodeRecord(n)
  {
    if n.NullNode? { return Some(Record("", "", "", "", map[])); }
    if !n.Obj? { return None; }
    var status, since := DecodeString(n.members, Status), DecodeString(n.members, Since);
    var until, witnessClass := DecodeString(n.members, Until), DecodeString(n.members, Witness);
    if status.None? || since.None? || until.None? || witnessClass.None? { return None; }
    var raw := n.members;
    raw := raw - {Status};
    raw := raw - {Since};
    raw := raw - {Until};
    raw := raw - {Witness};
    assert raw == n.members - RESERVED;
    r := Some(Record(status.value, since.value, until.value, witnessClass.value, raw));
  }

  method MarshalRecord(r: Record) returns (n: Node)
    ensures n == EncodeRecord(r)
  {
    var out: map<Key, Node> := map[];
    var left := r.facets.Keys;
    while left != {}
      invariant left <= r.facets.Keys
      invariant out == map k | k in r.facets && k !in left :: r.facets[k]
    {
      var k :| k in left;
      out := out[k := r.facets[k]];
      left := left - {k};
    }
    assert out == r.facets;
    out := out[Status := Str(r.status)];
    out := out[Since := Str(r.since)];
    if r.until != "" { out := out[Until := Str(r.until)]; }
    out := out[Witness := Str(r.witnessClass)];
    n := Obj(out);
  }

  // ----- Records survive the trip -----

  /** The three required members are strings, and `until` is absent or a non-empty string. */
  predicate WellFormed(n: Node) {
    && n.Obj?
    && (forall k <- {Status, Since, Witness} :: k in n.members && n.members[k].Str?)
    && (Until in n.members ==> n.members[Until].Str? && n.members[Until].text != "")
  }

  /** Decoding then encoding keeps every key and value of exactly the well-formed records. */
  lemma DecodeThenEncode(n: Node)
    ensures DecodeRecord(n).Some? && EncodeRecord(DecodeRecord(n).value) == n <==> WellFormed(n)
  {
    if WellFormed(n) {
      assert Status in n.members && Since in n.members && Witness in n.members;
      var r := DecodeRecord(n).value;
      assert r.facets + Typed(r) == n.members;
    }
  }

  /** Encoding then decoding returns the record exactly when no facet has a reserved name. */
  lemma EncodeThenDecode(r: Record)
    ensures DecodeRecord(EncodeRecord(r)) == Some(r) <==> r.facets.Keys !! RESERVED
  {
    var m := r.facets + Typed(r);
    if r.facets.Keys !! RESERVED {
      assert m - RESERVED == r.facets;
    } else {
      var k :| k in r.facets && k in RESERVED;
      assert k !in m - RESERVED;
    }
  }

  // ----- The root -----

  /** The typed metadata, kept as nodes, and the family records. */
  datatype Root = Root(metadata: map<Key, Node>, families: map<Key, Record>)

  function Restrict(m: map<Key, Node>, keys: set<Key>): map<Key, Node> {
    map k | k in m && k in keys :: m[k]
  }

  /** A root decodes when each of its family members does; other unmodelled keys are passed over. */
  function DecodeRoot(m: map<Key, Node>, metadata: set<Key>, families: set<Key>): Option<Root> {
    if forall k | k in m && k in families :: DecodeRecord(m[k]).Some? then
      Some(Root(Restrict(m, metadata), map k | k in m && k in families :: DecodeRecord(m[k]).value))
    else None
  }

  function EncodeRoot(root: Root): map<Key, Node> {
    map k | k in root.metadata.Keys + root.families.Keys ::
      if k in root.families then EncodeRecord(root.families[k]) else root.metadata[k]
  }

  method UnmarshalRoot(m: map<Key, Node>, metadata: set<Key>, families: set<Key>) returns (root: Option<Root>)
    ensures root == DecodeRoot(m, metadata, families)
  {
    var records: map<Key, Record> := map[];
    var left := m.Keys;
    while left != {}
      invariant left <= m.Keys
      invariant forall k | k in m && k in families && k !in left :: DecodeRecord(m[k]).Some?
      invariant records == map k | k in m && k in families && k !in left :: DecodeRecord(m[k]).value
    {
      var key :| key in left;
      if key in families {
        var rec := UnmarshalRecord(m[key]);
        if rec.None? {
          assert key in m && key in families && DecodeRecord(m[key]).None?;
          return None;
        }
        records := records[key := rec.value];
      }
      left := left - {key};
    }
    assert records == map k | k in m && k in families :: DecodeRecord(m[k]).value;
    root := Some(Root(Restrict(m, metadata), records));
  }

  method MarshalRoot(root: Root) returns (merged: map<Key, Node>)
    ensures merged == EncodeRoot(root)
  {
    merged := root.metadata;
    var left := root.families.Keys;
    while left != {}
      invariant left <= root.families.Keys
      invariant merged.Keys == root.metadata.Keys + (root.families.Keys - left)
      invariant forall k | k in root.families && k !in left :: merged[k] == EncodeRecord(root.families[k])
      invariant forall k | k in root.metadata && (k !in root.families || k in left) :: merged[k] == root.metadata[k]
    {
      var key :| key in left;
      var encoded := MarshalRecord(root.families[key]);
      merged := merged[key := encoded];
      left := left - {key};
    }
    MergedIsEncoded(merged, root);
  }

  lemma MergedIsEncoded(merged: map<Key, Node>, root: Root)
    requires merged.Keys == root.metadata.Keys + root.families.Keys
    requires forall k | k in root.families :: merged[k] == EncodeRecord(root.families[k])
    requires forall k | k in root.metadata && k !in root.families :: merged[k] == root.metadata[k]
    ensures merged == EncodeRoot(root)
  {
    assert merged.Keys == EncodeRoot(root).Keys;
  }

  /** Through the root, every well-formed family record survives and exactly the unmodelled keys are dropped. */
  lemma RootRoundTrip(m: map<Key, Node>, metadata: set<Key>, families: set<Key>)
    requires metadata !! families
    requires forall k | k in m && k in families :: WellFormed(m[k])
    ensures DecodeRoot(m, metadata, families).Some?
    ensures EncodeRoot(DecodeRoot(m, metadata, families).value) == Restrict(m, metadata + families)
  {
    forall k | k in m && k in families
      ensures DecodeRecord(m[k]).Some? && EncodeRecord(DecodeRecord(m[k]).value) == m[k]
    {
      DecodeThenEncode(m[k]);
    }
    FamiliesSurvive(m, metadata, families);
  }

  lemma FamiliesSurvive(m: map<Key, Node>, metadata: set<Key>, families: set<Key>)
    requires metadata !! families
    requires
      forall k | k in m && k in families ::
        DecodeRecord(m[k]).Some? && EncodeRecord(DecodeRecord(m[k]).value) == m[k]
    ensures DecodeRoot(m, metadata, families).Some?
    ensures EncodeRoot(DecodeRoot(m, metadata, families).value) == Restrict(m, metadata + families)
  {
    var root := DecodeRoot(m, metadata, families).value;
    var back, kept := EncodeRoot(root), Restrict(m, metadata + families);
    assert back.Keys == kept.Keys;
    assert forall k | k in back :: back[k] == kept[k];
  }

  /** A root whose keys are in their place and whose facets are not reserved is read back as it was written. */
  lemma RootReadBack(root: Root, metadata: set<Key>, families: set<Key>)
    requires metadata !! families && root.metadata.Keys <= metadata && root.families.Keys <= families
    ensures DecodeRoot(EncodeRoot(root), metadata, families) == Some(root) <==>
            forall k <- root.families :: root.families[k].facets.Keys !! RESERVED
  {
    var m := EncodeRoot(root);
    assert forall k | k in m :: k in families <==> k in root.families;
    forall k | k in root.families
      ensures m[k] == EncodeRecord(root.families[k])
      ensures DecodeRecord(m[k]) == Some(root.families[k]) <==> root.families[k].facets.Keys !! RESERVED
    {
      EncodeThenDecode(root.families[k]);
    }
    ReadBackByFamily(root, m, metadata, families);
  }

  /** A root is read back when each of its family members is. */
  lemma ReadBackByFamily(root: Root, m: map<Key, Node>, metadata: set<Key>, families: set<Key>)
    requires root.families.Keys == m.Keys * families && Restrict(m, metadata) == root.metadata
    ensures DecodeRoot(m, metadata, families) == Some(root) <==>
            forall k <- root.families :: DecodeRecord(m[k]) == Some(root.families[k])
  {
    if forall k <- root.families :: DecodeRecord(m[k]) == Some(root.families[k]) {
      assert forall k | k in m && k in families :: k in root.families;
      var read := map k | k in m && k in families :: DecodeRecord(m[k]).value;
      assert read == root.families;
    }
  }

  // ----- Which records decode, and to what -----

  /** A record decodes exactly when none of its four members has a type other than string. */
  lemma DecodesExactly(n: Node)
    ensures DecodeRecord(n).Some? <==>
            || n.NullNode?
            || (n.Obj? && forall k <- {Status, Since, Until, Witness} ::
                  k in n.members ==> n.members[k].Str? || n.members[k].NullNode?)
  {
  }

  /** Each member is read from its own name, and the rest is kept as it is. */
  lemma ReadsExactly(n: Node)
    requires n.Obj? && DecodeRecord(n).Some?
    ensures
      var r, m := DecodeRecord(n).value, n.members;
      && (Status in m && m[Status].Str? ==> r.status == m[Status].text)
      && (Since in m && m[Since].Str? ==> r.since == m[Since].text)
      && (Until in m && m[Until].Str? ==> r.until == m[Until].text)
      && (Witness in m && m[Witness].Str? ==> r.witnessClass == m[Witness].text)
      && (Status !in m ==> r.status == "") && (Since !in m ==> r.since == "")
      && (Until !in m ==> r.until == "") && (Witness !in m ==> r.witnessClass == "")
      && forall name: string ::
           (Named(name) in r.facets <==> Named(name) in m)
           && (Named(name) in m ==> r.facets[Named(name)] == m[Named(name)])
  {
  }

  /** Each member is written under its own name; `until` is left out when it is empty. */
  lemma WritesExactly(r: Record)
    ensures
      var m := EncodeRecord(r).members;
      && Status in m && m[Status] == Str(r.status) && Since in m && m[Since] == Str(r.since)
      && Witness in m && m[Witness] == Str(r.witnessClass)
      && (r.until != "" ==> Until in m && m[Until] == Str(r.until))
      && (r.until == "" && Until !in r.facets ==> Until !in m)
      && forall name: string ::
           (Named(name) in m <==> Named(name) in r.facets)
           && (Named(name) in m ==> m[Named(name)] == r.facets[Named(name)])
  {
  }

  /** A root decodes exactly when every family record in it does, and holds just those records. */
  lemma RootDecodesExactly(m: map<Key, Node>, metadata: set<Key>, families: set<Key>)
    ensures DecodeRoot(m, metadata, families).Some? <==>
            forall k | k in m && k in families :: DecodeRecord(m[k]).Some?
    ensures
      var root := DecodeRoot(m, metadata, families);
      root.Some? ==>
        && root.value.families.Keys == m.Keys * families
        && (forall k <- root.value.families :: Some(root.value.families[k]) == DecodeRecord(m[k]))
        && root.value.metadata.Keys == m.Keys * metadata
        && forall k <- root.value.metadata :: root.value.metadata[k] == m[k]
  {
  }
}
