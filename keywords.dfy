/**
 * A document's keywords as DocumentsController sees them: keyword records
 * holding keywords, each keyword carrying its keyword type's name and its
 * text.  The LINQ grouping of Index (SelectMany, then GroupBy on the type
 * name, then ToDictionary) is the pair Names/Members.
 */
module Keywords {

  /** A keyword: `KeywordType.Name` and what `ToString()` renders. */
  datatype Keyword = Keyword(typeName: string, text: string)

  /** `document.KeywordRecords`, each record's `Keywords` in order. */
  type KeywordRecords = seq<seq<Keyword>>

  /** SelectMany over the records: every keyword, record by record. */
  function Flatten(records: KeywordRecords): (ks: seq<Keyword>)
    ensures forall k :: k in ks <==> exists r :: r in records && k in r
  {
    if records == [] then []
    else
      var rest := Flatten(records[1..]);
      assert forall r :: r in records[1..] ==> r in records;
      assert forall r :: r in records ==> r == records[0] || r in records[1..];
      records[0] + rest
  }

  /** The group keys in the order GroupBy meets them: each type name once,
      at its first appearance. */
  function Names(ks: seq<Keyword>): (names: seq<string>)
    ensures forall i, j :: 0 <= i < j < |names| ==> names[i] != names[j]
    ensures forall n :: n in names <==> exists k :: k in ks && k.typeName == n
  {
    if ks == [] then []
    else
      var front := ks[..|ks| - 1];
      var earlier := Names(front);
      var last := ks[|ks| - 1];
      assert ks == front + [last];
      if last.typeName in earlier then earlier else earlier + [last.typeName]
  }

  /** One group: the keywords named `name`, in their original order. */
  function Members(ks: seq<Keyword>, name: string): (ms: seq<Keyword>)
    ensures forall k :: k in ms <==> k in ks && k.typeName == name
    ensures |ms| <= |ks|
  {
    if ks == [] then []
    else
      var rest := Members(ks[1..], name);
      assert forall k :: k in ks <==> k == ks[0] || k in ks[1..];
      if ks[0].typeName == name then [ks[0]] + rest else rest
  }

  /** Every group GroupBy forms has at least one member. */
  lemma GroupsAreNonEmpty(ks: seq<Keyword>, name: string)
    requires name in Names(ks)
    ensures |Members(ks, name)| > 0
  {
    var k :| k in ks && k.typeName == name;
    assert k in Members(ks, name);
  }

  /** The first keyword's type name is the first group key. */
  lemma {:induction false} NamesFirstAppearance(ks: seq<Keyword>, k: Keyword)
    ensures Names([k] + ks)[0] == k.typeName
  {
    if ks == [] {
      assert [k] + ks == [k];
      assert [k][..0] == [];
    } else {
      var all := [k] + ks;
      var front := all[..|all| - 1];
      assert front == [k] + ks[..|ks| - 1];
      NamesFirstAppearance(ks[..|ks| - 1], k);
    }
  }

  /** The positions from `p` on of the keywords named `name`: increasing,
      and exactly the positions from `p` on holding such a keyword. */
  function IndicesFrom(ks: seq<Keyword>, name: string, p: nat): (idx: seq<nat>)
    requires p <= |ks|
    ensures forall i :: 0 <= i < |idx| ==> p <= idx[i] < |ks| && ks[idx[i]].typeName == name
    ensures forall i, j :: 0 <= i < j < |idx| ==> idx[i] < idx[j]
    ensures forall q :: p <= q < |ks| && ks[q].typeName == name ==> q in idx
    decreases |ks| - p
  {
    if p == |ks| then []
    else if ks[p].typeName == name then [p] + IndicesFrom(ks, name, p + 1)
    else IndicesFrom(ks, name, p + 1)
  }

  /** A group keeps its keywords in document order and with their
      multiplicity: member i is the keyword at the i-th position holding
      that type name. */
  lemma MembersInOrder(ks: seq<Keyword>, name: string)
    ensures |Members(ks, name)| == |IndicesFrom(ks, name, 0)|
    ensures forall i :: 0 <= i < |Members(ks, name)| ==> Members(ks, name)[i] == ks[IndicesFrom(ks, name, 0)[i]]
  {
    assert ks[0..] == ks;
    MembersFrom(ks, name, 0);
  }

  lemma {:induction false} MembersFrom(ks: seq<Keyword>, name: string, p: nat)
    requires p <= |ks|
    ensures |Members(ks[p..], name)| == |IndicesFrom(ks, name, p)|
    ensures forall i :: 0 <= i < |Members(ks[p..], name)| ==> Members(ks[p..], name)[i] == ks[IndicesFrom(ks, name, p)[i]]
    decreases |ks| - p
  {
    if p < |ks| {
      var tail := ks[p..];
      assert tail[0] == ks[p] && tail[1..] == ks[p + 1..];
      MembersFrom(ks, name, p + 1);
      var ms, rest := Members(tail, name), Members(ks[p + 1..], name);
      var idx, restIdx := IndicesFrom(ks, name, p), IndicesFrom(ks, name, p + 1);
      if ks[p].typeName == name {
        assert ms == [ks[p]] + rest && idx == [p] + restIdx;
        forall i | 0 <= i < |ms| ensures ms[i] == ks[idx[i]] {
          if i > 0 {
            assert ms[i] == rest[i - 1] && idx[i] == restIdx[i - 1];
          }
        }
      } else {
        assert ms == rest && idx == restIdx;
      }
    }
  }

  /** The position of the first keyword named `name`. */
  function FirstIndexOf(ks: seq<Keyword>, name: string): (p: nat)
    requires name in Names(ks)
    ensures p < |ks| && ks[p].typeName == name
    ensures forall q :: 0 <= q < p ==> ks[q].typeName != name
  {
    if ks[0].typeName == name then 0
    else
      var k :| k in ks && k.typeName == name;
      assert k in ks[1..];
      1 + FirstIndexOf(ks[1..], name)
  }

  /** The group keys come in the order their first keywords appear. */
  lemma {:induction false} NamesInFirstAppearanceOrder(ks: seq<Keyword>)
    ensures forall i, j :: 0 <= i < j < |Names(ks)| ==>
      FirstIndexOf(ks, Names(ks)[i]) < FirstIndexOf(ks, Names(ks)[j])
  {
    if ks != [] {
      var front, last := ks[..|ks| - 1], ks[|ks| - 1];
      assert ks == front + [last];
      NamesInFirstAppearanceOrder(front);
      forall n | n in Names(front) ensures n in Names(ks) && FirstIndexOf(ks, n) == FirstIndexOf(front, n) {
        var k :| k in front && k.typeName == n;
        assert k in ks;
        var p := FirstIndexOf(front, n);
        assert ks[p] == front[p];
      }
    }
  }
}
