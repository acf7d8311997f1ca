/** The license-node table: each distinct subexpression of a parsed license
    expression is stored once, as a row (type, left, right, leaf) pointing
    at its children's rows. The SQL table becomes a sequence of records with
    a serial-id counter; the license-leaf table is an abstract map from
    identifier to leaf id. */
module LicenseNodes {
  import opened Wrappers
  import opened LicenseRep

  /** Type codes stored in the `type` column. */
  const LnodeErr: int := 0
  const LnodeLeaf: int := 1
  const LnodeAnd: int := 2
  const LnodeOr: int := 3
  const LnodeWith: int := 4
  const LnodePlus: int := 5

  /** A Go `(value, error)` pair whose value is meaningful even on error. */
  datatype Coded<T> = Coded(value: T, err: Option<string>)

  function GetIntForNodeType(nodeType: ParsedLicenseNodeType): (r: Coded<int>)
    ensures r.err.None? <==> NodeIdentifier <= nodeType <= NodePlus
    ensures r.err.Some? ==> r.value == LnodeErr
    ensures r.err.None? ==> LnodeLeaf <= r.value <= LnodePlus
  {
    if nodeType == NodeIdentifier then Coded(LnodeLeaf, None)
    else if nodeType == NodeAnd then Coded(LnodeAnd, None)
    else if nodeType == NodeOr then Coded(LnodeOr, None)
    else if nodeType == NodeWith then Coded(LnodeWith, None)
    else if nodeType == NodePlus then Coded(LnodePlus, None)
    else if nodeType == NodeError then Coded(LnodeErr, Some("error node type"))
    else Coded(LnodeErr, Some("unknown node type"))
  }

  function GetNodeTypeForInt(nodeType: int): (r: Coded<ParsedLicenseNodeType>)
    ensures r.err.None? <==> LnodeLeaf <= nodeType <= LnodePlus
    ensures r.err.Some? ==> r.value == NodeError
    ensures r.err.None? ==> NodeIdentifier <= r.value <= NodePlus
  {
    if nodeType == LnodeLeaf then Coded(NodeIdentifier, None)
    else if nodeType == LnodeAnd then Coded(NodeAnd, None)
    else if nodeType == LnodeOr then Coded(NodeOr, None)
    else if nodeType == LnodeWith then Coded(NodeWith, None)
    else if nodeType == LnodePlus then Coded(NodePlus, None)
    else Coded(NodeError, Some("unknown node type"))
  }

  /** The two conversions are mutually inverse on the five valid types, in
      both directions. */
  lemma NodeTypeCodesRoundTrip(nt: ParsedLicenseNodeType, nt': ParsedLicenseNodeType, code: int)
    ensures NodeIdentifier <= nt <= NodePlus ==>
              GetNodeTypeForInt(GetIntForNodeType(nt).value) == Coded(nt, None)
    ensures LnodeLeaf <= code <= LnodePlus ==>
              GetIntForNodeType(GetNodeTypeForInt(code).value) == Coded(code, None)
    ensures (GetIntForNodeType(nt).err.None? && GetIntForNodeType(nt) == GetIntForNodeType(nt'))
              ==> nt == nt'
  {
  }

  /** One row of the table. */
  datatype NodeRecord = NodeRecord(id: int, nodeType: int, leftID: int, rightID: int, leafID: int)

  /** The columns a lookup of the given type compares: the leaf for a leaf
      node, the left child for Plus and both children for a conjunction. */
  function Key(nodeType: int, leftID: int, rightID: int, leafID: int): (k: (int, int, int, int))
    ensures k.0 == nodeType
  {
    if nodeType == LnodeLeaf then (LnodeLeaf, 0, 0, leafID)
    else if nodeType == LnodePlus then (LnodePlus, leftID, 0, 0)
    else if LnodeAnd <= nodeType <= LnodeWith then (nodeType, leftID, rightID, 0)
    else (nodeType, leftID, rightID, leafID)
  }

  function KeyOf(rec: NodeRecord): (int, int, int, int) {
    Key(rec.nodeType, rec.leftID, rec.rightID, rec.leafID)
  }

  predicate Interned(rec: NodeRecord) {
    LnodeLeaf <= rec.nodeType <= LnodePlus
  }

  /** The first record of a valid type whose key is `k`, as a lookup by
      contents returns it. */
  function Find(records: seq<NodeRecord>, k: (int, int, int, int)): (r: Option<NodeRecord>)
    ensures r.Some? ==> r.value in records && Interned(r.value) && KeyOf(r.value) == k
    ensures r.None? ==> forall i :: 0 <= i < |records| && Interned(records[i]) ==> KeyOf(records[i]) != k
  {
    if records == [] then None
    else if Interned(records[0]) && KeyOf(records[0]) == k then Some(records[0])
    else Find(records[1..], k)
  }

  /** A record found in a table is still the one found after more records
      are appended. */
  lemma {:induction false} FindExtends(records: seq<NodeRecord>, more: seq<NodeRecord>, k: (int, int, int, int))
    requires Find(records, k).Some?
    ensures Find(records + more, k) == Find(records, k)
  {
    assert records != [];
    if !(Interned(records[0]) && KeyOf(records[0]) == k) {
      assert (records + more)[1..] == records[1..] + more;
      FindExtends(records[1..], more, k);
    }
  }

  lemma {:induction false} FindAppendNew(records: seq<NodeRecord>, rec: NodeRecord)
    requires Find(records, KeyOf(rec)).None? && Interned(rec)
    ensures Find(records + [rec], KeyOf(rec)) == Some(rec)
  {
    if records == [] {
      assert records + [rec] == [rec];
    } else {
      assert (records + [rec])[1..] == records[1..] + [rec];
      FindAppendNew(records[1..], rec);
    }
  }

  /** The whole state of the table, as a value. */
  datatype Store = Store(records: seq<NodeRecord>, nextID: int, leaves: map<string, int>)

  /** Row ids are below the serial counter and pairwise distinct. */
  predicate IdsValid(st: Store) {
    && st.nextID >= 1
    && (forall i :: 0 <= i < |st.records| ==> 0 <= st.records[i].id < st.nextID)
    && (forall i, j :: 0 <= i < j < |st.records| ==> st.records[i].id != st.records[j].id)
  }

  /** The deduplication invariant: no two records of a valid type share
      their contents. */
  predicate NoDuplicates(records: seq<NodeRecord>) {
    forall i, j :: 0 <= i < j < |records| && Interned(records[i]) && Interned(records[j]) ==>
      KeyOf(records[i]) != KeyOf(records[j])
  }

  /** `st2` is `st1` with records appended and the leaves untouched. */
  predicate Extends(st1: Store, st2: Store) {
    && |st1.records| <= |st2.records| && st2.records[..|st1.records|] == st1.records
    && st1.nextID <= st2.nextID
    && st2.leaves == st1.leaves
  }

  lemma ExtendsTransitive(st1: Store, st2: Store, st3: Store)
    requires Extends(st1, st2) && Extends(st2, st3)
    ensures Extends(st1, st3)
  {
    assert st3.records[..|st1.records|] == st3.records[..|st2.records|][..|st1.records|];
  }

  /** Insert one record with the next serial id. */
  function Insert(st: Store, nodeType: int, leftID: int, rightID: int, leafID: int): (r: (NodeRecord, Store))
    ensures r.0 == NodeRecord(st.nextID, nodeType, leftID, rightID, leafID)
    ensures r.1 == Store(st.records + [r.0], st.nextID + 1, st.leaves)
  {
    var rec := NodeRecord(st.nextID, nodeType, leftID, rightID, leafID);
    (rec, Store(st.records + [rec], st.nextID + 1, st.leaves))
  }

  /** Return the existing record with these contents, or insert one: a
      record found leaves the table as it was; otherwise exactly one record,
      with the next serial id and these contents, is appended. */
  function CheckOrInsert(st: Store, nodeType: int, leftID: int, rightID: int, leafID: int)
    : (r: (Result<Option<NodeRecord>>, Store))
    ensures r.0.Ok? && r.0.value.Some? && Extends(st, r.1)
    ensures r.0.value.value in r.1.records && r.0.value.value.nodeType == nodeType
    ensures KeyOf(r.0.value.value) == Key(nodeType, leftID, rightID, leafID)
    ensures Find(st.records, Key(nodeType, leftID, rightID, leafID)).Some? ==>
              r.1 == st && r.0.value == Find(st.records, Key(nodeType, leftID, rightID, leafID))
    ensures Find(st.records, Key(nodeType, leftID, rightID, leafID)).None? ==>
              && r.0.value.value == NodeRecord(st.nextID, nodeType, leftID, rightID, leafID)
              && r.1 == Store(st.records + [r.0.value.value], st.nextID + 1, st.leaves)
  {
    match Find(st.records, Key(nodeType, leftID, rightID, leafID))
    case Some(rec) => (Ok(Some(rec)), st)
    case None =>
      var (rec, st') := Insert(st, nodeType, leftID, rightID, leafID);
      (Ok(Some(rec)), st')
  }

  /** The trees the interner can walk without dereferencing a nil child:
      conjunctions have both children and Plus has its left child. */
  predicate Shaped(pln: Option<ParsedLicenseNode>)
    decreases pln
  {
    match pln
    case None => true
    case Some(p) =>
      if IsConjunction(p.nodeType) then
        p.leftChild.Some? && p.rightChild.Some? && Shaped(p.leftChild) && Shaped(p.rightChild)
      else if p.nodeType == NodePlus then
        p.leftChild.Some? && Shaped(p.leftChild)
      else true
  }

  /** Every tree the converter produces can be interned. */
  lemma {:induction false} WellFormedIsShaped(p: ParsedLicenseNode)
    requires WellFormed(p)
    ensures Shaped(Some(p))
    decreases p
  {
    if IsConjunction(p.nodeType) {
      WellFormedIsShaped(p.leftChild.value);
      WellFormedIsShaped(p.rightChild.value);
    }
  }

  /** CheckAndInsertLicenseNodes as a function of the table's state: a nil
      tree gives nil, the five valid types go to their helper, any other
      type fails without touching the table. */
  function Intern(st: Store, pln: Option<ParsedLicenseNode>): (r: (Result<Option<NodeRecord>>, Store))
    requires Shaped(pln)
    decreases pln, 1
    ensures pln.None? <==> r.0 == Ok(None)
    ensures pln.None? ==> r.1 == st
  {
    match pln
    case None => (Ok(None), st)
    case Some(p) =>
      if p.nodeType == NodeIdentifier then InternIdentifier(st, p)
      else if IsConjunction(p.nodeType) then InternConjunction(st, p)
      else if p.nodeType == NodePlus then InternPlus(st, p)
      else (Err("unknown node type when checking and inserting license nodes"), st)
  }

  /** checkAndInsertNodeIdentifier: the leaf must already exist. */
  function InternIdentifier(st: Store, p: ParsedLicenseNode): (r: (Result<Option<NodeRecord>>, Store))
    requires p.nodeType == NodeIdentifier
    ensures r.0.Ok? <==> p.expression in st.leaves
    ensures r.0.Err? ==> r.1 == st
    ensures r.0.Ok? ==> && r.0.value.Some? && r.0.value.value.nodeType == LnodeLeaf
                        && r.0.value.value.leafID == st.leaves[p.expression]
  {
    if p.expression !in st.leaves then
      (Err("license leaf not found when adding nodes: " + p.expression), st)
    else
      CheckOrInsert(st, LnodeLeaf, 0, 0, st.leaves[p.expression])
  }

  /** checkAndInsertNodeAnd/Or/With: left child, right child, then the node
      itself. Records inserted for the left child stay when the right one
      fails. */
  function InternConjunction(st: Store, p: ParsedLicenseNode): (r: (Result<Option<NodeRecord>>, Store))
    requires IsConjunction(p.nodeType) && Shaped(Some(p))
    decreases Some(p), 0
    ensures r.0.Ok? ==> r.0.value.Some?
    ensures r.0.Ok? ==>
              var (left, st1) := Intern(st, p.leftChild);
              && left.Ok? && Intern(st1, p.rightChild).0.Ok?
              && r.0.value.value.nodeType == GetIntForNodeType(p.nodeType).value
              && r.0.value.value.leftID == left.value.value.id
              && r.0.value.value.rightID == Intern(st1, p.rightChild).0.value.value.id
  {
    var (left, st1) := Intern(st, p.leftChild);
    if left.Err? then (Err("left child not found when adding nodes"), st1)
    else
      var (right, st2) := Intern(st1, p.rightChild);
      if right.Err? then (Err("right child not found when adding nodes"), st2)
      else
        CheckOrInsert(st2, GetIntForNodeType(p.nodeType).value,
                      left.value.value.id, right.value.value.id, 0)
  }

  /** checkAndInsertNodePlus: left child, then the node itself. */
  function InternPlus(st: Store, p: ParsedLicenseNode): (r: (Result<Option<NodeRecord>>, Store))
    requires p.nodeType == NodePlus && Shaped(Some(p))
    decreases Some(p), 0
    ensures r.0.Ok? ==> r.0.value.Some?
    ensures r.0.Ok? ==>
              && Intern(st, p.leftChild).0.Ok?
              && r.0.value.value.nodeType == LnodePlus
              && r.0.value.value.leftID == Intern(st, p.leftChild).0.value.value.id
  {
    var (left, st1) := Intern(st, p.leftChild);
    if left.Err? then (Err("left child not found when adding nodes"), st1)
    else CheckOrInsert(st1, LnodePlus, left.value.value.id, 0, 0)
  }

  /** `st2` is `st1` with records appended, and each table invariant that
      `st1` has, `st2` has too. */
  predicate Preserves(st1: Store, st2: Store) {
    && Extends(st1, st2)
    && (IdsValid(st1) ==> IdsValid(st2))
    && (NoDuplicates(st1.records) ==> NoDuplicates(st2.records))
  }

  lemma PreservesTransitive(st1: Store, st2: Store, st3: Store)
    requires Preserves(st1, st2) && Preserves(st2, st3)
    ensures Preserves(st1, st3)
  {
    ExtendsTransitive(st1, st2, st3);
  }

  lemma CheckOrInsertPreserves(st: Store, nodeType: int, leftID: int, rightID: int, leafID: int)
    ensures Preserves(st, CheckOrInsert(st, nodeType, leftID, rightID, leafID).1)
  {
    var k := Key(nodeType, leftID, rightID, leafID);
    if Find(st.records, k).None? {
      var rec := Insert(st, nodeType, leftID, rightID, leafID).0;
      assert KeyOf(rec) == k;
    }
  }

  /** Interning only appends records, never touches the leaves, keeps row
      ids distinct and below the counter, and keeps the table free of
      duplicate contents. */
  lemma {:induction false} InternPreserves(st: Store, pln: Option<ParsedLicenseNode>)
    requires Shaped(pln)
    ensures Preserves(st, Intern(st, pln).1)
    decreases pln, 1
  {
    match pln
    case None =>
      assert st.records[..|st.records|] == st.records;
    case Some(p) =>
      if p.nodeType == NodeIdentifier {
        if p.expression in st.leaves {
          CheckOrInsertPreserves(st, LnodeLeaf, 0, 0, st.leaves[p.expression]);
        } else {
          assert st.records[..|st.records|] == st.records;
        }
      } else if IsConjunction(p.nodeType) {
        InternConjunctionPreserves(st, p);
      } else if p.nodeType == NodePlus {
        InternPlusPreserves(st, p);
      } else {
        assert st.records[..|st.records|] == st.records;
      }
  }

  lemma {:induction false} InternConjunctionPreserves(st: Store, p: ParsedLicenseNode)
    requires IsConjunction(p.nodeType) && Shaped(Some(p))
    ensures Preserves(st, InternConjunction(st, p).1)
    decreases Some(p), 0
  {
    InternPreserves(st, p.leftChild);
    var (left, st1) := Intern(st, p.leftChild);
    if left.Ok? {
      InternPreserves(st1, p.rightChild);
      var (right, st2) := Intern(st1, p.rightChild);
      PreservesTransitive(st, st1, st2);
      if right.Ok? {
        CheckOrInsertPreserves(st2, GetIntForNodeType(p.nodeType).value,
                               left.value.value.id, right.value.value.id, 0);
        PreservesTransitive(st, st2, InternConjunction(st, p).1);
      }
    }
  }

  lemma {:induction false} InternPlusPreserves(st: Store, p: ParsedLicenseNode)
    requires p.nodeType == NodePlus && Shaped(Some(p))
    ensures Preserves(st, InternPlus(st, p).1)
    decreases Some(p), 0
  {
    InternPreserves(st, p.leftChild);
    var (left, st1) := Intern(st, p.leftChild);
    if left.Ok? {
      CheckOrInsertPreserves(st1, LnodePlus, left.value.value.id, 0, 0);
      PreservesTransitive(st, st1, InternPlus(st, p).1);
    }
  }

  /** A successful call on a non-nil tree returns a record of the table
      whose type is the node's type code; an identifier's record holds its
      license leaf, a Plus record its child's record, a conjunction's record
      its two children's records. */
  lemma InternSound(st: Store, p: ParsedLicenseNode)
    requires Shaped(Some(p))
    requires Intern(st, Some(p)).0.Ok?
    ensures var (r, st') := Intern(st, Some(p));
            && r.value.Some? && r.value.value in st'.records
            && r.value.value.nodeType == GetIntForNodeType(p.nodeType).value
    ensures p.nodeType == NodeIdentifier ==>
              p.expression in st.leaves && Intern(st, Some(p)).0.value.value.leafID == st.leaves[p.expression]
    ensures p.nodeType == NodePlus ==>
              && Intern(st, p.leftChild).0.Ok?
              && Intern(st, Some(p)).0.value.value.leftID == Intern(st, p.leftChild).0.value.value.id
    ensures IsConjunction(p.nodeType) ==>
              var (left, st1) := Intern(st, p.leftChild);
              && left.Ok? && Intern(st1, p.rightChild).0.Ok?
              && Intern(st, Some(p)).0.value.value.leftID == left.value.value.id
              && Intern(st, Some(p)).0.value.value.rightID == Intern(st1, p.rightChild).0.value.value.id
  {
  }

  /** An identifier whose leaf is missing fails and inserts nothing; leaves
      are never created. */
  lemma MissingLeafFails(st: Store, p: ParsedLicenseNode)
    requires p.nodeType == NodeIdentifier && p.expression !in st.leaves
    ensures Intern(st, Some(p)).0.Err? && Intern(st, Some(p)).1 == st
  {
  }

  /** A node type outside the five valid ones fails and inserts nothing. */
  lemma UnknownTypeFails(st: Store, p: ParsedLicenseNode)
    requires !(NodeIdentifier <= p.nodeType <= NodePlus)
    ensures Intern(st, Some(p)) == (Err("unknown node type when checking and inserting license nodes"), st)
  {
  }

  /** A conjunction's record points at the records its children were
      interned to, which are in the table by the time the parent is looked
      up. */
  lemma ParentPointsToChildren(st: Store, p: ParsedLicenseNode)
    requires IsConjunction(p.nodeType) && Shaped(Some(p))
    requires InternConjunction(st, p).0.Ok?
    ensures var (left, st1) := Intern(st, p.leftChild);
            var (right, st2) := Intern(st1, p.rightChild);
            var rec := InternConjunction(st, p).0.value.value;
            && left.Ok? && right.Ok? && left.value.Some? && right.value.Some?
            && left.value.value in st1.records && right.value.value in st2.records
            && rec.leftID == left.value.value.id && rec.rightID == right.value.value.id
  {
    var (left, st1) := Intern(st, p.leftChild);
    InternSound(st, p.leftChild.value);
    InternSound(st1, p.rightChild.value);
  }

  /** Re-interning: once a tree has been interned, interning it again in the
      resulting table, or in any table extending it, returns the same record
      and inserts nothing. */
  lemma {:induction false} InternAgain(st: Store, pln: Option<ParsedLicenseNode>, later: Store)
    requires Shaped(pln)
    requires Intern(st, pln).0.Ok? && Extends(Intern(st, pln).1, later)
    ensures Intern(later, pln) == (Intern(st, pln).0, later)
    decreases pln, 1
  {
    match pln
    case None =>
    case Some(p) =>
      if p.nodeType == NodeIdentifier {
        CheckOrInsertAgain(st, LnodeLeaf, 0, 0, st.leaves[p.expression], later);
      } else if IsConjunction(p.nodeType) {
        InternConjunctionAgain(st, p, later);
      } else {
        InternPlusAgain(st, p, later);
      }
  }

  lemma {:induction false} InternConjunctionAgain(st: Store, p: ParsedLicenseNode, later: Store)
    requires IsConjunction(p.nodeType) && Shaped(Some(p))
    requires InternConjunction(st, p).0.Ok? && Extends(InternConjunction(st, p).1, later)
    ensures InternConjunction(later, p) == (InternConjunction(st, p).0, later)
    decreases Some(p), 0
  {
    var (left, st1) := Intern(st, p.leftChild);
    var (right, st2) := Intern(st1, p.rightChild);
    var code := GetIntForNodeType(p.nodeType).value;
    ExtendsTransitive(st2, InternConjunction(st, p).1, later);
    InternPreserves(st1, p.rightChild);
    ExtendsTransitive(st1, st2, later);
    InternAgain(st, p.leftChild, later);
    InternAgain(st1, p.rightChild, later);
    CheckOrInsertAgain(st2, code, left.value.value.id, right.value.value.id, 0, later);
  }

  lemma {:induction false} InternPlusAgain(st: Store, p: ParsedLicenseNode, later: Store)
    requires p.nodeType == NodePlus && Shaped(Some(p))
    requires InternPlus(st, p).0.Ok? && Extends(InternPlus(st, p).1, later)
    ensures InternPlus(later, p) == (InternPlus(st, p).0, later)
    decreases Some(p), 0
  {
    var (left, st1) := Intern(st, p.leftChild);
    ExtendsTransitive(st1, InternPlus(st, p).1, later);
    InternAgain(st, p.leftChild, later);
    CheckOrInsertAgain(st1, LnodePlus, left.value.value.id, 0, 0, later);
  }

  lemma CheckOrInsertAgain(st: Store, nodeType: int, leftID: int, rightID: int, leafID: int, later: Store)
    requires LnodeLeaf <= nodeType <= LnodePlus
    requires Extends(CheckOrInsert(st, nodeType, leftID, rightID, leafID).1, later)
    ensures CheckOrInsert(later, nodeType, leftID, rightID, leafID)
            == (CheckOrInsert(st, nodeType, leftID, rightID, leafID).0, later)
  {
    var k := Key(nodeType, leftID, rightID, leafID);
    var st' := CheckOrInsert(st, nodeType, leftID, rightID, leafID).1;
    if Find(st.records, k).None? {
      var rec := Insert(st, nodeType, leftID, rightID, leafID).0;
      assert KeyOf(rec) == k;
      FindAppendNew(st.records, rec);
    }
    assert Find(st'.records, k) == CheckOrInsert(st, nodeType, leftID, rightID, leafID).0.value;
    assert later.records == st'.records + later.records[|st'.records|..];
    FindExtends(st'.records, later.records[|st'.records|..], k);
  }

  /** In particular, interning the same tree twice in a row returns the same
      record and leaves the table as the first call left it. */
  lemma InternTwice(st: Store, pln: Option<ParsedLicenseNode>)
    requires Shaped(pln) && Intern(st, pln).0.Ok?
    ensures Intern(Intern(st, pln).1, pln) == Intern(st, pln)
  {
    var st' := Intern(st, pln).1;
    assert st'.records[..|st'.records|] == st'.records;
    InternAgain(st, pln, st');
  }

  /** The table with the sentinel row (0, 0, 0, 0, 0) present. */
  function WithSentinel(st: Store): (r: Store)
    ensures (exists i :: 0 <= i < |st.records| && st.records[i].id == 0) ==> r == st
    ensures (forall i :: 0 <= i < |st.records| ==> st.records[i].id != 0) ==>
              r == st.(records := st.records + [NodeRecord(0, 0, 0, 0, 0)])
  {
    if exists i :: 0 <= i < |st.records| && st.records[i].id == 0 then st
    else st.(records := st.records + [NodeRecord(0, 0, 0, 0, 0)])
  }

  /** Adding the sentinel twice is the same as adding it once, and keeps
      both invariants. */
  lemma SentinelIdempotent(st: Store)
    ensures WithSentinel(WithSentinel(st)) == WithSentinel(st)
    ensures IdsValid(st) ==> IdsValid(WithSentinel(st))
    ensures NoDuplicates(st.records) ==> NoDuplicates(WithSentinel(st).records)
  {
    var r := WithSentinel(st);
    if forall i :: 0 <= i < |st.records| ==> st.records[i].id != 0 {
      assert r.records[|st.records|].id == 0;
    }
  }

  class LicenseNodeTable {
    var records: seq<NodeRecord>
    var nextID: int
    var leaves: map<string, int>

    function State(): Store
      reads this
    {
      Store(records, nextID, leaves)
    }

    ghost predicate Valid()
      reads this
    {
      IdsValid(State()) && NoDuplicates(records)
    }

    /** An empty table over the given license leaves; the serial counter
        starts at 1. */
    constructor (leaves: map<string, int>)
      ensures State() == Store([], 1, leaves)
      ensures Valid()
    {
      this.records := [];
      this.nextID := 1;
      this.leaves := leaves;
    }

    /** The sentinel-row part of the table setup. */
    method CreateSentinelIfNotExists()
      modifies this
      ensures State() == WithSentinel(old(State()))
      ensures old(Valid()) ==> Valid()
    {
      var i := 0;
      while i < |records|
        invariant 0 <= i <= |records|
        invariant forall j :: 0 <= j < i ==> records[j].id != 0
      {
        if records[i].id == 0 {
          return;
        }
        i := i + 1;
      }
      records := records + [NodeRecord(0, 0, 0, 0, 0)];
      SentinelIdempotent(old(State()));
    }

    /** The lookup queries behind GetLicenseNodeByContents. */
    function LookupByContents(nodeType: int, leftID: int, rightID: int, leafID: int): Option<NodeRecord>
      reads this
    {
      Find(records, Key(nodeType, leftID, rightID, leafID))
    }

    /** GetLicenseNodeByContents: dispatches on the type code and fails on
        an unknown one; `Ok(None)` means no such record. */
    function GetLicenseNodeByContents(nodeType: int, leftID: int, rightID: int, leafID: int)
      : (r: Result<Option<NodeRecord>>)
      reads this
      ensures r.Ok? <==> LnodeLeaf <= nodeType <= LnodePlus
      ensures r.Ok? && r.value.Some? ==>
                r.value.value in records && r.value.value.nodeType == nodeType
                && KeyOf(r.value.value) == Key(nodeType, leftID, rightID, leafID)
      ensures r.Ok? && r.value.None? ==>
                forall i :: 0 <= i < |records| && Interned(records[i]) ==>
                  KeyOf(records[i]) != Key(nodeType, leftID, rightID, leafID)
    {
      if LnodeLeaf <= nodeType <= LnodePlus then Ok(LookupByContents(nodeType, leftID, rightID, leafID))
      else Err("unknown license node type in GetLicenseNodeByContents")
    }

    method InsertLicenseNode(nodeType: int, leftID: int, rightID: int, leafID: int) returns (ln: NodeRecord)
      modifies this
      ensures (ln, State()) == Insert(old(State()), nodeType, leftID, rightID, leafID)
    {
      ln := NodeRecord(nextID, nodeType, leftID, rightID, leafID);
      records := records + [ln];
      nextID := nextID + 1;
    }

    method CheckAndInsertLicenseNodes(pln: Option<ParsedLicenseNode>) returns (r: Result<Option<NodeRecord>>)
      requires Shaped(pln)
      modifies this
      decreases pln, 1
      ensures (r, State()) == Intern(old(State()), pln)
      ensures old(Valid()) ==> Valid()
    {
      if pln.None? {
        return Ok(None);
      }
      var p := pln.value;
      if p.nodeType == NodeIdentifier {
        r := CheckAndInsertNodeIdentifier(p);
      } else if IsConjunction(p.nodeType) {
        r := CheckAndInsertNodeConjunction(p);
      } else if p.nodeType == NodePlus {
        r := CheckAndInsertNodePlus(p);
      } else {
        r := Err("unknown node type when checking and inserting license nodes");
      }
      InternPreserves(old(State()), pln);
    }

    method CheckAndInsertNodeIdentifier(p: ParsedLicenseNode) returns (r: Result<Option<NodeRecord>>)
      requires p.nodeType == NodeIdentifier
      modifies this
      decreases Some(p), 0
      ensures (r, State()) == InternIdentifier(old(State()), p)
    {
      if p.expression !in leaves {
        return Err("license leaf not found when adding nodes: " + p.expression);
      }
      var leafID := leaves[p.expression];
      var ln := LookupByContents(LnodeLeaf, 0, 0, leafID);
      if ln.Some? {
        return Ok(ln);
      }
      var rec := InsertLicenseNode(LnodeLeaf, 0, 0, leafID);
      return Ok(Some(rec));
    }

    /** checkAndInsertNodeAnd, checkAndInsertNodeOr and
        checkAndInsertNodeWith, which differ only in the type code. */
    method CheckAndInsertNodeConjunction(p: ParsedLicenseNode) returns (r: Result<Option<NodeRecord>>)
      requires IsConjunction(p.nodeType) && Shaped(Some(p))
      modifies this
      decreases Some(p), 0
      ensures (r, State()) == InternConjunction(old(State()), p)
    {
      var code := GetIntForNodeType(p.nodeType).value;
      var leftChild := CheckAndInsertLicenseNodes(p.leftChild);
      if leftChild.Err? {
        return Err("left child not found when adding nodes");
      }
      var rightChild := CheckAndInsertLicenseNodes(p.rightChild);
      if rightChild.Err? {
        return Err("right child not found when adding nodes");
      }
      var leftID := leftChild.value.value.id;
      var rightID := rightChild.value.value.id;
      var ln := LookupByContents(code, leftID, rightID, 0);
      if ln.Some? {
        return Ok(ln);
      }
      var rec := InsertLicenseNode(code, leftID, rightID, 0);
      return Ok(Some(rec));
    }

    method CheckAndInsertNodePlus(p: ParsedLicenseNode) returns (r: Result<Option<NodeRecord>>)
      requires p.nodeType == NodePlus && Shaped(Some(p))
      modifies this
      decreases Some(p), 0
      ensures (r, State()) == InternPlus(old(State()), p)
    {
      var leftChild := CheckAndInsertLicenseNodes(p.leftChild);
      if leftChild.Err? {
        return Err("left child not found when adding nodes");
      }
      var leftID := leftChild.value.value.id;
      var ln := LookupByContents(LnodePlus, leftID, 0, 0);
      if ln.Some? {
        return Ok(ln);
      }
      var rec := InsertLicenseNode(LnodePlus, leftID, 0, 0);
      return Ok(Some(rec));
    }
  }
}
