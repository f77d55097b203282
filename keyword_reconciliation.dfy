/**
 * Keyword reconciliation of DocumentsController.Index: the document's
 * keywords, grouped by type name, are compared with the requested
 * `DocumentIndex.Keywords` and turn into Update, Remove and Add edits on the
 * keyword modifier.  Each group is walked with an occurrence counter that a
 * null array element stops; a non-string element under the counter throws.
 * Request names the document does not have are added afterwards.
 */
module Reconciliation {
  import opened Wrappers
  import opened Keywords

  /** An element of a requested JSON array, by the kinds Index tells apart.
      `raw` is what `JsonElement.ToString()` renders for a number, boolean,
      object or array ("True"/"False" for booleans, the JSON text otherwise). */
  datatype JsonElem = EString(s: string) | ENull | EOther(raw: string)

  /** A value of `DocumentIndex.Keywords`: JSON null arrives as a null
      reference, anything else as a JsonElement of some kind. */
  datatype RequestValue = VNull | VString(s: string) | VArray(elems: seq<JsonElem>) | VOther(raw: string)

  /** The requested keywords, in dictionary order. */
  type Request = seq<(string, RequestValue)>

  /** A change to the document's keywords.  A new keyword is its type name and
      the string it is created from. */
  datatype Edit = Update(target: Keyword, value: string) | Remove(target: Keyword) | Add(typeName: string, value: string)

  /** The request either reindexes the document with these edits, throws, or
      returns the 500 problem for a non-string array element of a new name. */
  datatype Outcome = Reindex(edits: seq<Edit>) | Threw | InvalidJsonType

  ghost predicate DistinctNames(request: Request) {
    forall i, j :: 0 <= i < j < |request| ==> request[i].0 != request[j].0
  }

  /** `ContainsKey` and the indexer of the request dictionary. */
  function Lookup(request: Request, name: string): (v: Option<RequestValue>)
    ensures v.None? <==> forall i :: 0 <= i < |request| ==> request[i].0 != name
    ensures v.Some? ==> exists i :: 0 <= i < |request| && request[i] == (name, v.value)
  {
    if request == [] then None
    else if request[0].0 == name then Some(request[0].1)
    else
      var v := Lookup(request[1..], name);
      assert forall i :: 1 <= i < |request| ==> request[i] == request[1..][i - 1];
      v
  }

  /** `JsonElement.ToString()`: a string's value, "" for null, else its
      `ToString()` rendering. */
  function ElemText(e: JsonElem): string {
    match e
    case EString(s) => s
    case ENull => ""
    case EOther(raw) => raw
  }

  /** The index of the first element that is not a string, or |a|. */
  function FirstNonString(a: seq<JsonElem>): (k: nat)
    ensures k <= |a|
    ensures forall i :: 0 <= i < k ==> a[i].EString?
    ensures k < |a| ==> !a[k].EString?
  {
    if a == [] || !a[0].EString? then 0
    else 1 + FirstNonString(a[1..])
  }

  // ---------------------------------------------------------------------
  // One group, in closed form
  // ---------------------------------------------------------------------

  /** What happens to occurrence `i` of a group under the requested value
      (None: nothing).  Absent or null: removed.  A string: the first
      occurrence updated, the others removed.  An array: occurrences before
      the first non-string element take their element; past the array's end
      they are removed; once a null element is reached, nothing. */
  function OccurrenceEdit(target: Keyword, i: nat, requested: Option<RequestValue>): Option<Edit> {
    match requested
    case None => Some(Remove(target))
    case Some(VNull) => Some(Remove(target))
    case Some(VString(s)) => if i == 0 then Some(Update(target, s)) else Some(Remove(target))
    case Some(VOther(_)) => None
    case Some(VArray(a)) =>
      var k := FirstNonString(a);
      if i < k then Some(Update(target, a[i].s))
      else if k == |a| then Some(Remove(target))
      else None
  }

  function AsSeq(e: Option<Edit>): seq<Edit> {
    if e.Some? then [e.value] else []
  }

  /** The edits of all occurrences, in order. */
  function OccurrenceEdits(occurrences: seq<Keyword>, requested: Option<RequestValue>): seq<Edit> {
    if occurrences == [] then []
    else
      var i := |occurrences| - 1;
      OccurrenceEdits(occurrences[..i], requested) + AsSeq(OccurrenceEdit(occurrences[i], i, requested))
  }

  /** The occurrence counter after `i` occurrences: a null value or name
      never counts, a null array element stops the counter for good. */
  function CounterAfter(i: nat, requested: Option<RequestValue>): nat {
    match requested
    case None => 0
    case Some(VNull) => 0
    case Some(VArray(a)) =>
      var k := FirstNonString(a);
      if k < |a| && k < i then k else i
    case Some(_) => i
  }

  /** The group throws: the counter reaches an element of another kind
      (number, object, ...), whose GetString throws. */
  predicate Throws(n: nat, requested: Option<RequestValue>) {
    requested.Some? && requested.value.VArray?
    && var a := requested.value.elems;
    var k := FirstNonString(a);
    k < |a| && a[k].EOther? && k < n
  }

  /** The keywords added when the requested array is longer than the group:
      every element from the final counter on, by its text. */
  function AddEdits(name: string, n: nat, requested: Option<RequestValue>): seq<Edit> {
    if requested.Some? && requested.value.VArray? && |requested.value.elems| > n then
      var a := requested.value.elems;
      var c := CounterAfter(n, requested);
      assert c <= n;
      seq(|a| - c, j requires 0 <= j < |a| - c => Add(name, ElemText(a[c + j])))
    else []
  }

  /** The edits for one group, or None when it throws. */
  function GroupEdits(name: string, occurrences: seq<Keyword>, requested: Option<RequestValue>): Option<seq<Edit>> {
    if Throws(|occurrences|, requested) then None
    else Some(OccurrenceEdits(occurrences, requested) + AddEdits(name, |occurrences|, requested))
  }

  /** One step of the occurrence loop for an array value: what the element
      under the counter does to the occurrence and to the counter. */
  lemma ArrayStep(target: Keyword, a: seq<JsonElem>, i: nat, counter: nat, n: nat)
    requires i < n && counter == CounterAfter(i, Some(VArray(a))) && !Throws(i, Some(VArray(a)))
    ensures var v := Some(VArray(a));
      && (counter < |a| && a[counter].EString? ==>
            counter == i && OccurrenceEdit(target, i, v) == Some(Update(target, a[i].s))
            && CounterAfter(i + 1, v) == i + 1 && !Throws(i + 1, v))
      && (counter < |a| && a[counter].ENull? ==>
            OccurrenceEdit(target, i, v) == None && CounterAfter(i + 1, v) == counter && !Throws(i + 1, v))
      && (counter < |a| && a[counter].EOther? ==> Throws(n, v))
      && (counter >= |a| ==>
            OccurrenceEdit(target, i, v) == Some(Remove(target)) && CounterAfter(i + 1, v) == counter + 1
            && !Throws(i + 1, v))
  {
    var k := FirstNonString(a);
    if counter < |a| && !a[counter].EString? {
      assert counter == k;
    }
  }

  /** The occurrence loop of one group: each keyword of the group against
      the requested value, with the counter.  `threw` when GetString throws. */
  method WalkOccurrences(occurrences: seq<Keyword>, requested: Option<RequestValue>)
    returns (edits: seq<Edit>, counter: nat, threw: bool)
    ensures threw == Throws(|occurrences|, requested)
    ensures !threw ==> edits == OccurrenceEdits(occurrences, requested) && counter == CounterAfter(|occurrences|, requested)
  {
    edits, counter, threw := [], 0, false;
    var i := 0;
    while i < |occurrences|
      invariant 0 <= i <= |occurrences|
      invariant counter == CounterAfter(i, requested)
      invariant edits == OccurrenceEdits(occurrences[..i], requested)
      invariant !Throws(i, requested)
    {
      var keyword := occurrences[i];
      assert occurrences[..i + 1][..i] == occurrences[..i];
      match requested {
        case None =>
          edits := edits + [Remove(keyword)];
        case Some(VNull) =>
          edits := edits + [Remove(keyword)];
        case Some(VString(s)) =>
          if counter == 0 {
            edits := edits + [Update(keyword, s)];
          } else {
            edits := edits + [Remove(keyword)];
          }
          counter := counter + 1;
        case Some(VOther(_)) =>
          counter := counter + 1;
        case Some(VArray(a)) =>
          ArrayStep(keyword, a, i, counter, |occurrences|);
          if |a| > counter {
            match a[counter] {
              case ENull =>
              case EOther(_) =>
                return edits, counter, true;
              case EString(s) =>
                edits := edits + [Update(keyword, s)];
                counter := counter + 1;
            }
          } else {
            edits := edits + [Remove(keyword)];
            counter := counter + 1;
          }
      }
      i := i + 1;
    }
    assert occurrences[..i] == occurrences;
  }

  /** One group of Index: the occurrence loop, then the loop adding the
      elements of a longer array from the counter on. */
  method ReconcileGroup(name: string, occurrences: seq<Keyword>, requested: Option<RequestValue>)
    returns (edits: Option<seq<Edit>>)
    ensures edits == GroupEdits(name, occurrences, requested)
  {
    var done, counter, threw := WalkOccurrences(occurrences, requested);
    if threw {
      return None;
    }
    if requested.Some? && requested.value.VArray? && |requested.value.elems| > |occurrences| {
      var a := requested.value.elems;
      var j := counter;
      while j < |a|
        invariant counter <= j <= |a|
        invariant done == OccurrenceEdits(occurrences, requested)
          + seq(j - counter, t requires 0 <= t < j - counter => Add(name, ElemText(a[counter + t])))
      {
        done := done + [Add(name, ElemText(a[j]))];
        j := j + 1;
      }
      assert AddEdits(name, |occurrences|, requested)
        == seq(|a| - counter, t requires 0 <= t < |a| - counter => Add(name, ElemText(a[counter + t])));
    } else {
      assert AddEdits(name, |occurrences|, requested) == [];
      assert done == done + [];
    }
    edits := Some(done);
  }

  // ---------------------------------------------------------------------
  // Properties of one group
  // ---------------------------------------------------------------------

  /** When every occurrence has an edit, the edits are those, one each. */
  lemma {:induction false} OccurrenceEditsTotal(occurrences: seq<Keyword>, requested: Option<RequestValue>)
    requires forall i :: 0 <= i < |occurrences| ==> OccurrenceEdit(occurrences[i], i, requested).Some?
    ensures OccurrenceEdits(occurrences, requested)
      == seq(|occurrences|, i requires 0 <= i < |occurrences| => OccurrenceEdit(occurrences[i], i, requested).value)
  {
    if occurrences != [] {
      var n := |occurrences| - 1;
      OccurrenceEditsTotal(occurrences[..n], requested);
    }
  }

  /** Occurrences from `p` on that have no edit add nothing. */
  lemma {:induction false} OccurrenceEditsStopAt(occurrences: seq<Keyword>, requested: Option<RequestValue>, p: nat)
    requires p <= |occurrences|
    requires forall i :: p <= i < |occurrences| ==> OccurrenceEdit(occurrences[i], i, requested).None?
    ensures OccurrenceEdits(occurrences, requested) == OccurrenceEdits(occurrences[..p], requested)
  {
    if |occurrences| > p {
      var n := |occurrences| - 1;
      assert occurrences[..n][..p] == occurrences[..p];
      OccurrenceEditsStopAt(occurrences[..n], requested, p);
    } else {
      assert occurrences[..p] == occurrences;
    }
  }

  /** A name missing from the request, or mapped to null, removes every
      keyword of the group and adds nothing. */
  lemma NullOrMissingRemovesAll(name: string, occurrences: seq<Keyword>, requested: Option<RequestValue>)
    requires requested.None? || requested == Some(VNull)
    ensures GroupEdits(name, occurrences, requested)
      == Some(seq(|occurrences|, i requires 0 <= i < |occurrences| => Remove(occurrences[i])))
  {
    OccurrenceEditsTotal(occurrences, requested);
    var removes := seq(|occurrences|, i requires 0 <= i < |occurrences| => Remove(occurrences[i]));
    assert OccurrenceEdits(occurrences, requested) == removes;
    assert AddEdits(name, |occurrences|, requested) == [];
    assert removes + [] == removes;
  }

  /** A string value updates the first keyword of the group to it and removes
      the others. */
  lemma StringUpdatesFirst(name: string, occurrences: seq<Keyword>, s: string)
    requires |occurrences| >= 1
    ensures GroupEdits(name, occurrences, Some(VString(s)))
      == Some([Update(occurrences[0], s)]
              + seq(|occurrences| - 1, i requires 0 <= i < |occurrences| - 1 => Remove(occurrences[i + 1])))
  {
    var v := Some(VString(s));
    OccurrenceEditsTotal(occurrences, v);
    var rest := seq(|occurrences| - 1, i requires 0 <= i < |occurrences| - 1 => Remove(occurrences[i + 1]));
    assert OccurrenceEdits(occurrences, v) == [Update(occurrences[0], s)] + rest;
    assert AddEdits(name, |occurrences|, v) == [];
    assert !Throws(|occurrences|, v);
    assert ([Update(occurrences[0], s)] + rest) + [] == [Update(occurrences[0], s)] + rest;
  }

  /** An array of m strings against n keywords: keyword i < m takes element
      i, keyword i >= m is removed, and elements n..m-1 are added. */
  lemma StringArrayReconciles(name: string, occurrences: seq<Keyword>, a: seq<JsonElem>)
    requires forall i :: 0 <= i < |a| ==> a[i].EString?
    ensures var n := |occurrences|;
      var m := |a|;
      var u := if m < n then m else n;
      GroupEdits(name, occurrences, Some(VArray(a)))
      == Some(seq(u, i requires 0 <= i < u => Update(occurrences[i], a[i].s))
              + seq(n - u, i requires 0 <= i < n - u => Remove(occurrences[u + i]))
              + seq(if m > n then m - n else 0, j requires 0 <= j < m - n => Add(name, a[n + j].s)))
  {
    var v := Some(VArray(a));
    assert FirstNonString(a) == |a|;
    OccurrenceEditsTotal(occurrences, v);
    var n := |occurrences|;
    var m := |a|;
    var u := if m < n then m else n;
    var updates := seq(u, i requires 0 <= i < u => Update(occurrences[i], a[i].s));
    var removes := seq(n - u, i requires 0 <= i < n - u => Remove(occurrences[u + i]));
    var adds := seq(if m > n then m - n else 0, j requires 0 <= j < m - n => Add(name, a[n + j].s));
    assert OccurrenceEdits(occurrences, v) == updates + removes;
    assert !Throws(n, v);
    assert CounterAfter(n, v) == n;
    if m > n {
      assert forall t :: n <= t < m ==> ElemText(a[t]) == a[t].s;
      var added := AddEdits(name, n, v);
      assert |added| == m - n;
      assert forall j :: 0 <= j < m - n ==> added[j] == Add(name, ElemText(a[n + j]));
      assert added == adds;
    } else {
      assert AddEdits(name, n, v) == adds;
    }
  }

  /** A null element stops the counter: the keywords before it take their
      elements, the rest are left as they are, and when the array is longer
      than the group everything from the null element on is added, the null
      as "". */
  lemma NullElementStopsCounter(name: string, occurrences: seq<Keyword>, a: seq<JsonElem>, k: nat)
    requires k < |a| && a[k] == ENull && forall i :: 0 <= i < k ==> a[i].EString?
    ensures var n := |occurrences|;
      var u := if k < n then k else n;
      GroupEdits(name, occurrences, Some(VArray(a)))
      == Some(seq(u, i requires 0 <= i < u => Update(occurrences[i], a[i].s))
              + (if |a| > n then seq(|a| - u, j requires 0 <= j < |a| - u => Add(name, ElemText(a[u + j]))) else []))
  {
    var v := Some(VArray(a));
    var n := |occurrences|;
    var u := if k < n then k else n;
    assert FirstNonString(a) == k;
    OccurrenceEditsStopAt(occurrences, v, u);
    OccurrenceEditsTotal(occurrences[..u], v);
    var updates := seq(u, i requires 0 <= i < u => Update(occurrences[i], a[i].s));
    assert OccurrenceEdits(occurrences, v) == updates;
    assert !Throws(n, v);
    assert CounterAfter(n, v) == u;
    if |a| > n {
      assert AddEdits(name, n, v) == seq(|a| - u, j requires 0 <= j < |a| - u => Add(name, ElemText(a[u + j])));
    } else {
      assert AddEdits(name, n, v) == [];
      assert updates + [] == updates;
    }
  }

  /** An element of another kind under the counter makes the whole request
      throw. */
  lemma OtherElementThrows(name: string, occurrences: seq<Keyword>, a: seq<JsonElem>, k: nat)
    requires k < |a| && k < |occurrences| && a[k].EOther? && forall i :: 0 <= i < k ==> a[i].EString?
    ensures GroupEdits(name, occurrences, Some(VArray(a))) == None
  {
    assert FirstNonString(a) == k;
  }

  // ---------------------------------------------------------------------
  // The whole request
  // ---------------------------------------------------------------------

  /** Sequencing: edits accumulate until the first failure, which stands. */
  function Then(first: Outcome, rest: Outcome): (o: Outcome)
    ensures o.Reindex? <==> first.Reindex? && rest.Reindex?
  {
    if !first.Reindex? then first
    else if !rest.Reindex? then rest
    else Reindex(first.edits + rest.edits)
  }

  function GroupOutcome(ks: seq<Keyword>, name: string, request: Request): Outcome {
    var edits := GroupEdits(name, Members(ks, name), Lookup(request, name));
    if edits.Some? then Reindex(edits.value) else Threw
  }

  /** The groups, in dictionary order. */
  function GroupPhase(ks: seq<Keyword>, names: seq<string>, request: Request): Outcome {
    if names == [] then Reindex([])
    else Then(GroupOutcome(ks, names[0], request), GroupPhase(ks, names[1..], request))
  }

  /** A requested name the document does not have: the global keyword type
      must exist (else it throws, whatever the value); a string adds one
      keyword, an array one per element and fails on a non-string element,
      anything else adds nothing. */
  function NewNameOutcome(name: string, value: RequestValue, knownTypes: set<string>): Outcome {
    if name !in knownTypes then Threw
    else match value
      case VString(s) => Reindex([Add(name, s)])
      case VArray(a) =>
        if forall e :: e in a ==> e.EString? then Reindex(seq(|a|, j requires 0 <= j < |a| => Add(name, a[j].s)))
        else InvalidJsonType
      case _ => Reindex([])
  }

  /** The requested names not among `existing`, in request order. */
  function NewNamePhase(existing: seq<string>, entries: Request, knownTypes: set<string>): Outcome {
    if entries == [] then Reindex([])
    else if entries[0].0 in existing then NewNamePhase(existing, entries[1..], knownTypes)
    else Then(NewNameOutcome(entries[0].0, entries[0].1, knownTypes), NewNamePhase(existing, entries[1..], knownTypes))
  }

  /** Index from the grouping to the last Add. */
  function ReconcileSpec(records: KeywordRecords, request: Request, knownTypes: set<string>): Outcome {
    var ks := Flatten(records);
    Then(GroupPhase(ks, Names(ks), request), NewNamePhase(Names(ks), request, knownTypes))
  }

  lemma ThenAssociative(a: Outcome, b: Outcome, c: Outcome)
    ensures Then(Then(a, b), c) == Then(a, Then(b, c))
  {
    if a.Reindex? && b.Reindex? && c.Reindex? {
      assert (a.edits + b.edits) + c.edits == a.edits + (b.edits + c.edits);
    }
  }

  /** The new-name loop of Index. */
  method AddNewNames(existing: seq<string>, request: Request, knownTypes: set<string>) returns (outcome: Outcome)
    ensures outcome == NewNamePhase(existing, request, knownTypes)
  {
    var edits: seq<Edit> := [];
    var i := 0;
    while i < |request|
      invariant 0 <= i <= |request|
      invariant Then(Reindex(edits), NewNamePhase(existing, request[i..], knownTypes))
        == NewNamePhase(existing, request, knownTypes)
    {
      var (name, value) := request[i];
      assert request[i..][1..] == request[i + 1..];
      if name !in existing {
        if name !in knownTypes {
          return Threw;
        }
        var added: seq<Edit> := [];
        match value {
          case VString(s) =>
            added := [Add(name, s)];
          case VArray(a) =>
            var j := 0;
            while j < |a|
              invariant 0 <= j <= |a|
              invariant forall t :: 0 <= t < j ==> a[t].EString?
              invariant added == seq(j, t requires 0 <= t < j => Add(name, a[t].s))
            {
              if !a[j].EString? {
                assert a[j] in a;
                return InvalidJsonType;
              }
              added := added + [Add(name, a[j].s)];
              j := j + 1;
            }
          case _ =>
        }
        ThenAssociative(Reindex(edits), Reindex(added), NewNamePhase(existing, request[i + 1..], knownTypes));
        edits := edits + added;
      }
      i := i + 1;
    }
    outcome := Reindex(edits);
  }

  /** The group loop of Index: each group in dictionary order; the first
      group that throws ends the request. */
  method ReconcileGroups(ks: seq<Keyword>, names: seq<string>, request: Request) returns (outcome: Outcome)
    ensures outcome == GroupPhase(ks, names, request)
  {
    var edits: seq<Edit> := [];
    var i := 0;
    while i < |names|
      invariant 0 <= i <= |names|
      invariant Then(Reindex(edits), GroupPhase(ks, names[i..], request)) == GroupPhase(ks, names, request)
    {
      var name := names[i];
      assert names[i..][1..] == names[i + 1..];
      var groupEdits := ReconcileGroup(name, Members(ks, name), Lookup(request, name));
      if groupEdits.None? {
        return Threw;
      }
      ThenAssociative(Reindex(edits), Reindex(groupEdits.value), GroupPhase(ks, names[i + 1..], request));
      edits := edits + groupEdits.value;
      i := i + 1;
    }
    outcome := Reindex(edits);
  }

  /** Index's reconciliation: every group of the document's keywords, then
      every requested name it does not have.  The dictionary cannot hold a
      name twice. */
  method Reconcile(records: KeywordRecords, request: Request, knownTypes: set<string>) returns (outcome: Outcome)
    requires DistinctNames(request)
    ensures outcome == ReconcileSpec(records, request, knownTypes)
  {
    var ks := Flatten(records);
    var names := Names(ks);
    var grouped := ReconcileGroups(ks, names, request);
    if !grouped.Reindex? {
      return grouped;
    }
    var added := AddNewNames(names, request, knownTypes);
    outcome := Then(grouped, added);
  }

  // ---------------------------------------------------------------------
  // Properties of the whole request
  // ---------------------------------------------------------------------

  lemma {:induction false} GroupPhaseSucceeds(ks: seq<Keyword>, names: seq<string>, request: Request)
    ensures GroupPhase(ks, names, request).Reindex?
      <==> forall n :: n in names ==> !Throws(|Members(ks, n)|, Lookup(request, n))
  {
    if names != [] {
      GroupPhaseSucceeds(ks, names[1..], request);
      assert GroupOutcome(ks, names[0], request).Reindex? <==> !Throws(|Members(ks, names[0])|, Lookup(request, names[0]));
      assert forall n :: n in names <==> n == names[0] || n in names[1..];
    }
  }

  predicate NewNameAccepted(name: string, value: RequestValue, knownTypes: set<string>) {
    name in knownTypes && (value.VArray? ==> forall e :: e in value.elems ==> e.EString?)
  }

  lemma {:induction false} NewNamePhaseSucceeds(existing: seq<string>, entries: Request, knownTypes: set<string>)
    ensures NewNamePhase(existing, entries, knownTypes).Reindex?
      <==> forall i :: 0 <= i < |entries| && entries[i].0 !in existing ==> NewNameAccepted(entries[i].0, entries[i].1, knownTypes)
  {
    if entries != [] {
      NewNamePhaseSucceeds(existing, entries[1..], knownTypes);
      assert forall i :: 1 <= i < |entries| ==> entries[i] == entries[1..][i - 1];
    }
  }

  /** The request reindexes the document exactly when no group's counter
      meets a non-string, non-null element and every new name has a global
      keyword type and, for an array, only string elements. */
  lemma ReconcileSucceeds(records: KeywordRecords, request: Request, knownTypes: set<string>)
    ensures var ks := Flatten(records);
      ReconcileSpec(records, request, knownTypes).Reindex? <==>
        && (forall n :: n in Names(ks) ==> !Throws(|Members(ks, n)|, Lookup(request, n)))
        && (forall i :: 0 <= i < |request| && request[i].0 !in Names(ks) ==> NewNameAccepted(request[i].0, request[i].1, knownTypes))
  {
    var ks := Flatten(records);
    GroupPhaseSucceeds(ks, Names(ks), request);
    NewNamePhaseSucceeds(Names(ks), request, knownTypes);
  }

  lemma {:induction false} GroupPhaseIncludes(ks: seq<Keyword>, names: seq<string>, request: Request, name: string)
    requires name in names && GroupPhase(ks, names, request).Reindex?
    ensures GroupOutcome(ks, name, request).Reindex?
    ensures forall e :: e in GroupOutcome(ks, name, request).edits ==> e in GroupPhase(ks, names, request).edits
  {
    if names[0] != name {
      GroupPhaseIncludes(ks, names[1..], request, name);
    }
  }

  /** When the request reindexes the document, every keyword whose name the
      request leaves out or maps to null is removed. */
  lemma AbsentNamesRemoved(records: KeywordRecords, request: Request, knownTypes: set<string>, k: Keyword)
    requires k in Flatten(records)
    requires Lookup(request, k.typeName).None? || Lookup(request, k.typeName) == Some(VNull)
    requires ReconcileSpec(records, request, knownTypes).Reindex?
    ensures Remove(k) in ReconcileSpec(records, request, knownTypes).edits
  {
    var ks := Flatten(records);
    var ms := Members(ks, k.typeName);
    GroupPhaseIncludes(ks, Names(ks), request, k.typeName);
    NullOrMissingRemovesAll(k.typeName, ms, Lookup(request, k.typeName));
    assert k in ms;
    var i :| 0 <= i < |ms| && ms[i] == k;
    assert GroupOutcome(ks, k.typeName, request).edits[i] == Remove(k);
  }
}
