/** The part of the MMIF document API the stage uses: a document that gains
    views, and a view whose annotation list only grows. */
module Mmif {

  /** An annotation identifier: the view (or document list) it lives in and
      its serial number there. */
  datatype Id = Id(scope: nat, serial: nat)

  /** The annotation types a view declares it contains. `_annotate` declares
      only `Relation`; the entries the library adds by itself for the types it
      creates are not part of this model. */
  datatype AtType = Relation

  /** The annotations this stage creates. */
  datatype Annotation =
    | TextDocumentNode(id: Id, text: string, confidence: real)
    | AlignmentNode(id: Id, source: Id, target: Id)

  /** Annotation `k` of view `v` carries the id `Id(v, k)`: ids are fresh and
      pairwise distinct. */
  ghost predicate NumberedIds(viewId: nat, annotations: seq<Annotation>)
  {
    forall k :: 0 <= k < |annotations| ==> annotations[k].id == Id(viewId, k)
  }

  class View {
    const id: nat
    /** The `contains` metadata: for each declared type, the document its
        annotations are about. */
    var contains: map<AtType, Id>
    var annotations: seq<Annotation>

    ghost predicate Valid()
      reads this
    {
      NumberedIds(id, annotations)
    }

    constructor (id: nat)
      ensures this.id == id && contains == map[] && annotations == []
      ensures Valid()
    {
      this.id := id;
      contains := map[];
      annotations := [];
    }

    /** `new_contain`: declares a type unless it is already declared. */
    method NewContain(atType: AtType, document: Id)
      requires Valid()
      modifies this
      ensures Valid()
      ensures atType in old(contains) ==> contains == old(contains)
      ensures atType !in old(contains) ==> contains == old(contains)[atType := document]
      ensures annotations == old(annotations)
    {
      if atType !in contains {
        contains := contains[atType := document];
      }
    }

    /** `new_textdocument` followed by `add_property("confidence", ...)`. */
    method NewTextDocument(text: string, confidence: real) returns (docId: Id)
      requires Valid()
      modifies this
      ensures Valid()
      ensures docId == Id(id, |old(annotations)|)
      ensures annotations == old(annotations) + [TextDocumentNode(docId, text, confidence)]
      ensures contains == old(contains)
    {
      docId := Id(id, |annotations|);
      annotations := annotations + [TextDocumentNode(docId, text, confidence)];
    }

    /** `new_annotation(Alignment)` with its `source` and `target` properties. */
    method NewAlignment(source: Id, target: Id) returns (alignmentId: Id)
      requires Valid()
      modifies this
      ensures Valid()
      ensures alignmentId == Id(id, |old(annotations)|)
      ensures annotations == old(annotations) + [AlignmentNode(alignmentId, source, target)]
      ensures contains == old(contains)
    {
      alignmentId := Id(id, |annotations|);
      annotations := annotations + [AlignmentNode(alignmentId, source, target)];
    }
  }

  class MmifDocument {
    var views: seq<View>

    constructor (views: seq<View>)
      ensures this.views == views
    {
      this.views := views;
    }

    /** `new_view`: a fresh, empty view whose id no existing view has, added
        at the end of the view list. */
    method NewView() returns (v: View)
      modifies this
      ensures fresh(v) && v.Valid()
      ensures v.contains == map[] && v.annotations == []
      ensures views == old(views) + [v]
      ensures forall w :: w in old(views) ==> w.id != v.id
    {
      var next: nat := 0;
      var i := 0;
      while i < |views|
        invariant 0 <= i <= |views|
        invariant forall k :: 0 <= k < i ==> views[k].id < next
      {
        if views[i].id >= next {
          next := views[i].id + 1;
        }
        i := i + 1;
      }
      v := new View(next);
      views := views + [v];
    }
  }

  /** The ids issued in one view never collide. */
  lemma DistinctIds(viewId: nat, annotations: seq<Annotation>, j: int, k: int)
    requires NumberedIds(viewId, annotations)
    requires 0 <= j < |annotations| && 0 <= k < |annotations| && j != k
    ensures annotations[j].id != annotations[k].id
  {
  }
}
