/**
 * The string GetDocumentLastModified hashes: the latest revision's id in
 * invariant-culture digits, followed by the text of every keyword whose
 * type name equals one of the requested names ignoring case, record by
 * record.  The MD5 and Base64 steps after it are not part of this model.
 */
module DocumentHash {
  import opened Text
  import opened Keywords

  /** `keywordCollection.Any(v => name.Equals(v, InvariantCultureIgnoreCase))`. */
  predicate Requested(name: string, requested: seq<string>) {
    exists r :: r in requested && EqualsIgnoreCase(name, r)
  }

  /** The texts of the requested keywords, in order. */
  function MatchingTexts(ks: seq<Keyword>, requested: seq<string>): string {
    if ks == [] then ""
    else (if Requested(ks[0].typeName, requested) then ks[0].text else "") + MatchingTexts(ks[1..], requested)
  }

  /** The string that is hashed. */
  function HashInput(revisionId: int, records: KeywordRecords, requested: seq<string>): (s: string)
    ensures Decimal(revisionId) <= s
  {
    Decimal(revisionId) + MatchingTexts(Flatten(records), requested)
  }

  /** The nested loop of GetDocumentLastModified appending to the string. */
  method BuildHashInput(revisionId: int, records: KeywordRecords, requested: seq<string>) returns (stringToHash: string)
    ensures stringToHash == HashInput(revisionId, records, requested)
  {
    stringToHash := Decimal(revisionId);
    var i := 0;
    while i < |records|
      invariant 0 <= i <= |records|
      invariant stringToHash == Decimal(revisionId) + MatchingTexts(Flatten(records[..i]), requested)
    {
      var keywords := records[i];
      var j := 0;
      assert Flatten(records[..i]) + keywords[..0] == Flatten(records[..i]);
      while j < |keywords|
        invariant 0 <= j <= |keywords|
        invariant stringToHash == Decimal(revisionId) + MatchingTexts(Flatten(records[..i]) + keywords[..j], requested)
      {
        var keyword := keywords[j];
        MatchingTextsAppend(Flatten(records[..i]) + keywords[..j], [keyword], requested);
        assert keywords[..j + 1] == keywords[..j] + [keyword];
        assert Flatten(records[..i]) + keywords[..j + 1] == (Flatten(records[..i]) + keywords[..j]) + [keyword];
        if Requested(keyword.typeName, requested) {
          stringToHash := stringToHash + keyword.text;
        }
        j := j + 1;
      }
      FlattenSnoc(records, i);
      assert keywords[..j] == keywords;
      i := i + 1;
    }
    assert records[..i] == records;
  }

  lemma {:induction false} FlattenSnoc(records: KeywordRecords, i: nat)
    requires i < |records|
    ensures Flatten(records[..i + 1]) == Flatten(records[..i]) + records[i]
  {
    if i == 0 {
      assert records[..1] == [records[0]];
      assert records[..1][1..] == [];
    } else {
      var tail := records[1..];
      assert records[..i + 1][1..] == tail[..i];
      assert records[..i][1..] == tail[..i - 1];
      FlattenSnoc(tail, i - 1);
    }
  }

  /** The texts of a concatenation are the concatenated texts. */
  lemma {:induction false} MatchingTextsAppend(a: seq<Keyword>, b: seq<Keyword>, requested: seq<string>)
    ensures MatchingTexts(a + b, requested) == MatchingTexts(a, requested) + MatchingTexts(b, requested)
  {
    if a != [] {
      assert (a + b)[1..] == a[1..] + b;
      MatchingTextsAppend(a[1..], b, requested);
    } else {
      assert a + b == b;
    }
  }

  /** With no requested names the hash input is the revision id alone. */
  lemma {:induction false} NoNamesNoKeywords(ks: seq<Keyword>)
    ensures MatchingTexts(ks, []) == ""
  {
    if ks != [] {
      NoNamesNoKeywords(ks[1..]);
    }
  }

  /** Without requested names, documents with different revisions hash
      different strings. */
  lemma RevisionDecidesWithoutNames(r1: int, r2: int, records1: KeywordRecords, records2: KeywordRecords)
    requires HashInput(r1, records1, []) == HashInput(r2, records2, [])
    ensures r1 == r2
  {
    NoNamesNoKeywords(Flatten(records1));
    NoNamesNoKeywords(Flatten(records2));
    assert Decimal(r1) + "" == Decimal(r1);
    assert Decimal(r2) + "" == Decimal(r2);
    DecimalInjective(r1, r2);
  }

  /** Two requested lists that match the same type names give the same texts. */
  lemma {:induction false} SameMatchesSameTexts(ks: seq<Keyword>, requested1: seq<string>, requested2: seq<string>)
    requires forall k :: k in ks ==> Requested(k.typeName, requested1) == Requested(k.typeName, requested2)
    ensures MatchingTexts(ks, requested1) == MatchingTexts(ks, requested2)
  {
    if ks != [] {
      assert ks[0] in ks;
      assert forall k :: k in ks[1..] ==> k in ks;
      SameMatchesSameTexts(ks[1..], requested1, requested2);
    }
  }

  /** The requested names are compared ignoring case: spelling them in
      another case changes nothing. */
  lemma RequestedNamesIgnoreCase(revisionId: int, records: KeywordRecords, requested1: seq<string>, requested2: seq<string>)
    requires |requested1| == |requested2|
    requires forall i :: 0 <= i < |requested1| ==> ToLower(requested1[i]) == ToLower(requested2[i])
    ensures HashInput(revisionId, records, requested1) == HashInput(revisionId, records, requested2)
  {
    forall name: string
      ensures Requested(name, requested1) == Requested(name, requested2)
    {
      if Requested(name, requested1) {
        var r :| r in requested1 && EqualsIgnoreCase(name, r);
        var i :| 0 <= i < |requested1| && requested1[i] == r;
        assert requested2[i] in requested2 && EqualsIgnoreCase(name, requested2[i]);
      }
      if Requested(name, requested2) {
        var r :| r in requested2 && EqualsIgnoreCase(name, r);
        var i :| 0 <= i < |requested2| && requested2[i] == r;
        assert requested1[i] in requested1 && EqualsIgnoreCase(name, requested1[i]);
      }
    }
    SameMatchesSameTexts(Flatten(records), requested1, requested2);
  }
}
