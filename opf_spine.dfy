/** The `<spine>` of a Package Document: the reading order as a list of itemrefs. */
module OpfSpine {
  import opened Wrappers
  import opened Util
  import opened Xml
  import opened OpfEntities

  const LINEAR_NO: string := "no"

  /** The `o:itemref` children of a `<spine>` element. */
  function ItemrefNodes(n: Node): seq<Node>
  {
    Children(n, Q(NS_OPF, "itemref"))
  }

  /** Position of the first itemref with that idref, or -1. */
  function IndexOfIdref(itemrefs: seq<OPFItemref>, idref: Option<string>): (r: int)
    ensures -1 <= r < |itemrefs|
    ensures r == -1 <==> forall i :: 0 <= i < |itemrefs| ==> itemrefs[i].idref != idref
    ensures r >= 0 ==> itemrefs[r].idref == idref && forall j :: 0 <= j < r ==> itemrefs[j].idref != idref
  {
    IndexWhere(itemrefs, (e: OPFItemref) => e.idref == idref)
  }

  /** The itemrefs whose `linear` is not `"no"` (absent and `"yes"` are kept), in spine order. */
  function Linear(itemrefs: seq<OPFItemref>): (r: seq<OPFItemref>)
    ensures forall x :: x in r ==> x in itemrefs && x.linear != Some(LINEAR_NO)
    ensures forall i :: 0 <= i < |itemrefs| && itemrefs[i].linear != Some(LINEAR_NO) ==> itemrefs[i] in r
    ensures IsSubsequence(r, itemrefs)
    ensures forall i :: 0 <= i < |itemrefs| && itemrefs[i].linear != Some(LINEAR_NO) ==> multiset(r)[itemrefs[i]] == multiset(itemrefs)[itemrefs[i]]
  {
    var keep := (e: OPFItemref) => e.linear != Some(LINEAR_NO);
    FilterFacts(itemrefs, keep);
    FilterOrder(itemrefs, keep);
    Filter(itemrefs, keep)
  }

  class OPFSpine {
    const internalPath: Option<string>
    const id: Option<string>
    const pageProgressionDirection: Option<string>
    const toc: Option<string>
    var itemrefs: seq<OPFItemref>

    constructor (internalPath: Option<string>, id: Option<string>, ppd: Option<string>, toc: Option<string>)
      ensures this.internalPath == internalPath && this.id == id
      ensures pageProgressionDirection == ppd && this.toc == toc && itemrefs == []
    {
      this.internalPath := internalPath;
      this.id := id;
      pageProgressionDirection := ppd;
      this.toc := toc;
      itemrefs := [];
    }

    /**
      `parse_object`: the id, page-progression-direction and toc attributes
      of `<spine>`, then one itemref per `<itemref>` child in document order.
    */
    static method Parse(n: Node, internalPath: Option<string>) returns (s: OPFSpine)
      ensures fresh(s) && s.ParsedFrom(n, internalPath)
    {
      s := new OPFSpine(internalPath, Attr(n, "id"), Attr(n, "page-progression-direction"), Attr(n, "toc"));
      var nodes := ItemrefNodes(n);
      var k := 0;
      while k < |nodes|
        invariant 0 <= k <= |nodes| && |s.itemrefs| == k
        invariant fresh(s) && s.internalPath == internalPath
        invariant s.id == Attr(n, "id") && s.pageProgressionDirection == Attr(n, "page-progression-direction")
        invariant s.toc == Attr(n, "toc")
        invariant forall i :: 0 <= i < k ==> s.itemrefs[i] == ItemrefOf(nodes[i])
      {
        s.AddItemref(ItemrefOf(nodes[k]));
        k := k + 1;
      }
    }

    /** The spine is the parse of `n`: its attributes, and one itemref per `<itemref>` child, in order. */
    ghost predicate ParsedFrom(n: Node, internalPath: Option<string>)
      reads this
    {
      this.internalPath == internalPath && id == Attr(n, "id") &&
      pageProgressionDirection == Attr(n, "page-progression-direction") && toc == Attr(n, "toc") &&
      |itemrefs| == |ItemrefNodes(n)| &&
      forall i :: 0 <= i < |itemrefs| ==> itemrefs[i] == ItemrefOf(ItemrefNodes(n)[i])
    }

    /** `len(spine)`. */
    function Length(): (r: nat)
      reads this
      ensures r == |itemrefs|
    {
      |itemrefs|
    }

    /** `add_itemref`: the itemref goes at the end. */
    method AddItemref(itemref: OPFItemref)
      modifies this
      ensures itemrefs == old(itemrefs) + [itemref]
      ensures Length() == old(Length()) + 1
    {
      itemrefs := itemrefs + [itemref];
    }

    /** `itemref_by_id`: the first itemref with that id, or None. */
    function ItemrefById(id: Option<string>): (r: Option<OPFItemref>)
      reads this
      ensures r.None? <==> forall i :: 0 <= i < |itemrefs| ==> itemrefs[i].id != id
      ensures r.Some? ==> exists k :: 0 <= k < |itemrefs| && itemrefs[k] == r.value && r.value.id == id &&
                                      forall j :: 0 <= j < k ==> itemrefs[j].id != id
    {
      var keep := (e: OPFItemref) => e.id == id;
      FirstMatchFacts(itemrefs, keep);
      FirstMatch(itemrefs, keep)
    }

    /** `itemref_by_idref`: the first itemref with that idref, or None. */
    function ItemrefByIdref(idref: Option<string>): (r: Option<OPFItemref>)
      reads this
      ensures r.None? <==> forall i :: 0 <= i < |itemrefs| ==> itemrefs[i].idref != idref
      ensures r.Some? ==> exists k :: 0 <= k < |itemrefs| && itemrefs[k] == r.value && r.value.idref == idref &&
                                      forall j :: 0 <= j < k ==> itemrefs[j].idref != idref
    {
      var keep := (e: OPFItemref) => e.idref == idref;
      FirstMatchFacts(itemrefs, keep);
      FirstMatch(itemrefs, keep)
    }

    /** `linear_itemrefs`. */
    function LinearItemrefs(): (r: seq<OPFItemref>)
      reads this
      ensures r == Linear(itemrefs)
      ensures |r| <= |itemrefs|
    {
      Linear(itemrefs)
    }

    /** The counter loop of `index_by_idref` and `linear_index_by_idref` over a list of itemrefs. */
    static method ScanIdref(list: seq<OPFItemref>, idref: Option<string>) returns (r: int)
      ensures r == IndexOfIdref(list, idref)
    {
      var index := 0;
      while index < |list|
        invariant 0 <= index <= |list|
        invariant forall j :: 0 <= j < index ==> list[j].idref != idref
      {
        if list[index].idref == idref {
          return index;
        }
        index := index + 1;
      }
      return -1;
    }

    /** `index_by_idref`: the smallest spine position with that idref, or -1. */
    method IndexByIdref(idref: Option<string>) returns (r: int)
      ensures r == IndexOfIdref(itemrefs, idref)
      ensures r == -1 <==> forall i :: 0 <= i < |itemrefs| ==> itemrefs[i].idref != idref
      ensures r >= 0 ==> itemrefs[r].idref == idref && forall j :: 0 <= j < r ==> itemrefs[j].idref != idref
    {
      r := ScanIdref(itemrefs, idref);
    }

    /** `linear_index_by_idref`: the first position with that idref in the linear spine, or -1. */
    method LinearIndexByIdref(idref: Option<string>) returns (r: int)
      ensures r == IndexOfIdref(Linear(itemrefs), idref)
      ensures r >= 0 ==> Linear(itemrefs)[r].idref == idref
    {
      r := ScanIdref(LinearItemrefs(), idref);
    }
  }

  /** An idref carried only by `linear="no"` itemrefs has no linear index. */
  lemma LinearIndexOfNonLinear(itemrefs: seq<OPFItemref>, idref: Option<string>)
    requires forall i :: 0 <= i < |itemrefs| && itemrefs[i].idref == idref ==> itemrefs[i].linear == Some(LINEAR_NO)
    ensures IndexOfIdref(Linear(itemrefs), idref) == -1
  {
    var l := Linear(itemrefs);
    forall i | 0 <= i < |l| ensures l[i].idref != idref {
      assert l[i] in l;
    }
  }

  /** Whatever has a linear index is also in the spine. */
  lemma LinearIndexInSpine(itemrefs: seq<OPFItemref>, idref: Option<string>)
    requires IndexOfIdref(Linear(itemrefs), idref) >= 0
    ensures IndexOfIdref(itemrefs, idref) >= 0
  {
    var l := Linear(itemrefs);
    var k := IndexOfIdref(l, idref);
    assert l[k] in l;
  }

  /** For linear values `yes, no, absent, no` the linear spine is positions 0 and 2. */
  lemma LinearExample(a: OPFItemref, b: OPFItemref, c: OPFItemref, d: OPFItemref)
    requires a.linear == Some("yes") && b.linear == Some(LINEAR_NO)
    requires c.linear == None && d.linear == Some(LINEAR_NO)
    ensures Linear([a, b, c, d]) == [a, c]
  {
    var p := (e: OPFItemref) => e.linear != Some(LINEAR_NO);
    assert [d][1..] == [];
    assert Filter([d], p) == [];
    assert [c, d][1..] == [d];
    assert Filter([c, d], p) == [c];
    assert [b, c, d][1..] == [c, d];
    assert Filter([b, c, d], p) == [c];
    assert [a, b, c, d][1..] == [b, c, d];
    assert Filter([a, b, c, d], p) == [a, c];
  }
}
