/** The `<guide>` of a Package Document (EPUB 2): a list of references. */
module OpfGuide {
  import opened Wrappers
  import opened Util
  import opened Xml
  import opened OpfEntities

  /** The `o:reference` children of a `<guide>` element. */
  function ReferenceNodes(n: Node): seq<Node>
  {
    Children(n, Q(NS_OPF, "reference"))
  }

  /** The first reference with that `type` (None matches one without type), or None. */
  function ReferenceWithType(references: seq<OPFReference>, kind: Option<string>): (r: Option<OPFReference>)
    ensures r.None? <==> forall i :: 0 <= i < |references| ==> references[i].kind != kind
    ensures r.Some? ==> exists k :: 0 <= k < |references| && references[k] == r.value && r.value.kind == kind &&
                                    forall j :: 0 <= j < k ==> references[j].kind != kind
  {
    var keep := (e: OPFReference) => e.kind == kind;
    FirstMatchFacts(references, keep);
    FirstMatch(references, keep)
  }

  /** The first reference with that `id` (None matches one without id), or None. */
  function ReferenceWithId(references: seq<OPFReference>, id: Option<string>): (r: Option<OPFReference>)
    ensures r.None? <==> forall i :: 0 <= i < |references| ==> references[i].id != id
    ensures r.Some? ==> exists k :: 0 <= k < |references| && references[k] == r.value && r.value.id == id &&
                                    forall j :: 0 <= j < k ==> references[j].id != id
  {
    var keep := (e: OPFReference) => e.id == id;
    FirstMatchFacts(references, keep);
    FirstMatch(references, keep)
  }

  class OPFGuide {
    const internalPath: Option<string>
    const id: Option<string>
    var references: seq<OPFReference>

    constructor (internalPath: Option<string>, id: Option<string>)
      ensures this.internalPath == internalPath && this.id == id && references == []
    {
      this.internalPath := internalPath;
      this.id := id;
      references := [];
    }

    /** `parse_object`: the `id` attribute, then one reference per `<reference>` child in document order. */
    static method Parse(n: Node, internalPath: Option<string>) returns (g: OPFGuide)
      ensures fresh(g) && g.ParsedFrom(n, internalPath)
    {
      g := new OPFGuide(internalPath, Attr(n, "id"));
      var nodes := ReferenceNodes(n);
      var k := 0;
      while k < |nodes|
        invariant 0 <= k <= |nodes| && |g.references| == k
        invariant fresh(g) && g.internalPath == internalPath && g.id == Attr(n, "id")
        invariant forall i :: 0 <= i < k ==> g.references[i] == ReferenceOf(nodes[i])
      {
        g.AddReference(ReferenceOf(nodes[k]));
        k := k + 1;
      }
    }

    /** The guide is the parse of `n`: its id, and one reference per `<reference>` child, in order. */
    ghost predicate ParsedFrom(n: Node, internalPath: Option<string>)
      reads this
    {
      this.internalPath == internalPath && id == Attr(n, "id") &&
      |references| == |ReferenceNodes(n)| &&
      forall i :: 0 <= i < |references| ==> references[i] == ReferenceOf(ReferenceNodes(n)[i])
    }

    /** `len(guide)`. */
    function Length(): (r: nat)
      reads this
      ensures r == |references|
    {
      |references|
    }

    /** `add_reference`: the reference goes at the end. */
    method AddReference(reference: OPFReference)
      modifies this
      ensures references == old(references) + [reference]
      ensures Length() == old(Length()) + 1
    {
      references := references + [reference];
    }

    /** `reference_by_type`: the first reference with that type, or None. */
    function ReferenceByType(kind: Option<string>): (r: Option<OPFReference>)
      reads this
      ensures r == ReferenceWithType(references, kind)
      ensures r.Some? ==> r.value in references && r.value.kind == kind
    {
      ReferenceWithType(references, kind)
    }

    /** `reference_by_id`: the first reference with that id, or None. */
    function ReferenceById(id: Option<string>): (r: Option<OPFReference>)
      reads this
      ensures r == ReferenceWithId(references, id)
      ensures r.Some? ==> r.value in references && r.value.id == id
    {
      ReferenceWithId(references, id)
    }
  }

  /** After `add_reference`, a lookup by type finds the earlier reference of that type if any, else the new one. */
  lemma AddThenLookupByType(references: seq<OPFReference>, reference: OPFReference)
    ensures ReferenceWithType(references + [reference], reference.kind) ==
            if ReferenceWithType(references, reference.kind).Some? then ReferenceWithType(references, reference.kind)
            else Some(reference)
  {
    FirstMatchAppend(references, reference, (e: OPFReference) => e.kind == reference.kind);
  }

  /** Adding a reference does not change the lookup of an id it does not carry. */
  lemma AddKeepsOtherIds(references: seq<OPFReference>, reference: OPFReference, id: Option<string>)
    requires reference.id != id
    ensures ReferenceWithId(references + [reference], id) == ReferenceWithId(references, id)
  {
    FirstMatchAppend(references, reference, (e: OPFReference) => e.id == id);
  }
}
