/** The external tree of a parsed SPDX license expression and its conversion
    from the parser's internal node tree, including the canonical,
    parenthesised expression text each node carries. */
module LicenseRep {
  import opened Wrappers
  import Normalize

  /** ParsedLicenseNodeType is a Go `int`: the six named codes below and,
      since nothing stops a caller, any other integer. */
  type ParsedLicenseNodeType = int

  const NodeIdentifier: ParsedLicenseNodeType := 0
  const NodeAnd: ParsedLicenseNodeType := 1
  const NodeOr: ParsedLicenseNodeType := 2
  const NodeWith: ParsedLicenseNodeType := 3
  const NodePlus: ParsedLicenseNodeType := 4
  const NodeError: ParsedLicenseNodeType := 5

  /** A nil child pointer is `None`. */
  datatype ParsedLicenseNode = ParsedLicenseNode(
    nodeType: ParsedLicenseNodeType,
    expression: string,
    leftChild: Option<ParsedLicenseNode>,
    rightChild: Option<ParsedLicenseNode>)

  /** The parser's internal node, reduced to the fields the converter reads. */
  datatype LicenseNode = LicenseNode(
    nodeType: string,
    identifier: string,
    plus: bool,
    leftChild: Option<LicenseNode>,
    rightChild: Option<LicenseNode>)

  predicate IsConjunction(nt: ParsedLicenseNodeType) {
    nt == NodeAnd || nt == NodeOr || nt == NodeWith
  }

  /** The text a node contributes to its parent's expression. */
  function GetChildExpression(pln: ParsedLicenseNode): string {
    if IsConjunction(pln.nodeType) then "(" + pln.expression + ")" else pln.expression
  }

  /** The operator word of a conjunction type, which is also the internal
      tree's name for it. */
  function Word(nt: ParsedLicenseNodeType): string
    requires IsConjunction(nt)
  {
    if nt == NodeAnd then "AND" else if nt == NodeOr then "OR" else "WITH"
  }

  /** What `convertNodeTreeToPLN` can end in: a (possibly nil) tree, an
      error, or a nil-pointer panic when a conjunction's child is nil and
      `getChildExpression` dereferences it. */
  datatype Conversion =
    | Converted(node: Option<ParsedLicenseNode>)
    | Failed(msg: string)
    | NilDereference

  /** The shape every converted tree has: identifier leaves, Plus nodes over
      one identifier leaf, and conjunctions over two well-formed subtrees,
      each node's expression built from its children's. */
  predicate WellFormed(p: ParsedLicenseNode)
    decreases p
  {
    if p.nodeType == NodeIdentifier then
      p.leftChild.None? && p.rightChild.None?
    else if p.nodeType == NodePlus then
      && p.leftChild.Some? && p.rightChild.None?
      && p.leftChild.value == ParsedLicenseNode(NodeIdentifier, p.leftChild.value.expression, None, None)
      && p.expression == p.leftChild.value.expression + "+"
    else if IsConjunction(p.nodeType) then
      && p.leftChild.Some? && p.rightChild.Some?
      && WellFormed(p.leftChild.value) && WellFormed(p.rightChild.value)
      && p.expression == GetChildExpression(p.leftChild.value) + " " + Word(p.nodeType) + " "
                         + GetChildExpression(p.rightChild.value)
    else
      false
  }

  function ConjunctionType(name: string): (nt: ParsedLicenseNodeType)
    requires name == "AND" || name == "OR" || name == "WITH"
    ensures IsConjunction(nt) && Word(nt) == name
  {
    if name == "AND" then NodeAnd else if name == "OR" then NodeOr else NodeWith
  }

  /** convertNodeTreeToPLN: children are converted left then right, each
      error returned as soon as it occurs. */
  function ConvertNodeTreeToPLN(nodeTree: Option<LicenseNode>): (r: Conversion)
    decreases nodeTree
    ensures nodeTree.None? ==> r == Converted(None)
    ensures r.Converted? && nodeTree.Some? ==> r.node.Some? && WellFormed(r.node.value)
  {
    match nodeTree
    case None => Converted(None)
    case Some(n) =>
      if n.nodeType == "IDENTIFIER" then
        if n.plus then
          var child := ParsedLicenseNode(NodeIdentifier, n.identifier, None, None);
          Converted(Some(ParsedLicenseNode(NodePlus, n.identifier + "+", Some(child), None)))
        else
          Converted(Some(ParsedLicenseNode(NodeIdentifier, n.identifier, None, None)))
      else if n.nodeType == "AND" || n.nodeType == "OR" || n.nodeType == "WITH" then
        var nt := ConjunctionType(n.nodeType);
        var left := ConvertNodeTreeToPLN(n.leftChild);
        if left.Failed? then left
        else if left.NilDereference? || left.node.None? then NilDereference
        else
          var right := ConvertNodeTreeToPLN(n.rightChild);
          if right.Failed? then right
          else if right.NilDereference? || right.node.None? then NilDereference
          else
            var l := left.node.value;
            var r := right.node.value;
            Converted(Some(ParsedLicenseNode(
              nt, GetChildExpression(l) + " " + Word(nt) + " " + GetChildExpression(r),
              Some(l), Some(r))))
      else
        Failed("got invalid nodeType " + n.nodeType
               + " converting internal nodeTree to ParsedLicenseNode")
  }

  /** The internal trees the converter accepts: every node is an identifier
      or a conjunction with both children present and convertible. */
  predicate Convertible(t: LicenseNode)
    decreases t
  {
    if t.nodeType == "IDENTIFIER" then true
    else if t.nodeType == "AND" || t.nodeType == "OR" || t.nodeType == "WITH" then
      t.leftChild.Some? && t.rightChild.Some?
      && Convertible(t.leftChild.value) && Convertible(t.rightChild.value)
    else false
  }

  /** Conversion of a non-nil tree succeeds exactly on convertible trees. */
  lemma {:induction false} ConvertSucceedsIff(t: LicenseNode)
    ensures ConvertNodeTreeToPLN(Some(t)).Converted? <==> Convertible(t)
    decreases t
  {
    if t.nodeType != "IDENTIFIER" && (t.nodeType == "AND" || t.nodeType == "OR" || t.nodeType == "WITH") {
      if t.leftChild.Some? {
        ConvertSucceedsIff(t.leftChild.value);
        if t.rightChild.Some? {
          ConvertSucceedsIff(t.rightChild.value);
        }
      }
    }
  }

  /** An error raised in the left subtree, or in the right one once the left
      converted, is returned unchanged. */
  lemma ConvertPropagatesErrors(t: LicenseNode)
    requires t.nodeType == "AND" || t.nodeType == "OR" || t.nodeType == "WITH"
    ensures ConvertNodeTreeToPLN(t.leftChild).Failed? ==>
              ConvertNodeTreeToPLN(Some(t)) == ConvertNodeTreeToPLN(t.leftChild)
    ensures ConvertNodeTreeToPLN(t.leftChild).Converted? && t.leftChild.Some?
            && ConvertNodeTreeToPLN(t.rightChild).Failed? ==>
              ConvertNodeTreeToPLN(Some(t)) == ConvertNodeTreeToPLN(t.rightChild)
  {
  }

  /** The node type a converted tree's root gets from the internal node. */
  lemma ConvertRootType(t: LicenseNode)
    requires ConvertNodeTreeToPLN(Some(t)).Converted?
    ensures var p := ConvertNodeTreeToPLN(Some(t)).node.value;
            && (t.nodeType == "IDENTIFIER" && !t.plus ==>
                  p == ParsedLicenseNode(NodeIdentifier, t.identifier, None, None))
            && (t.nodeType == "IDENTIFIER" && t.plus ==>
                  p.nodeType == NodePlus && p.expression == t.identifier + "+"
                  && p.leftChild == Some(ParsedLicenseNode(NodeIdentifier, t.identifier, None, None))
                  && p.rightChild.None?)
            && (t.nodeType != "IDENTIFIER" ==>
                  IsConjunction(p.nodeType) && Word(p.nodeType) == t.nodeType
                  && Some(p.leftChild.value) == ConvertNodeTreeToPLN(t.leftChild).node
                  && Some(p.rightChild.value) == ConvertNodeTreeToPLN(t.rightChild).node)
  {
  }

  /** The internal tree that converts to a given external one. */
  function ToInternal(p: ParsedLicenseNode): (t: LicenseNode)
    decreases p
  {
    if p.nodeType == NodePlus && p.leftChild.Some? then
      LicenseNode("IDENTIFIER", p.leftChild.value.expression, true, None, None)
    else if IsConjunction(p.nodeType) && p.leftChild.Some? && p.rightChild.Some? then
      LicenseNode(Word(p.nodeType), "", false,
                  Some(ToInternal(p.leftChild.value)), Some(ToInternal(p.rightChild.value)))
    else
      LicenseNode("IDENTIFIER", p.expression, false, None, None)
  }

  /** Every well-formed external tree is the conversion of some internal
      tree. */
  lemma {:induction false} ConvertToInternal(p: ParsedLicenseNode)
    requires WellFormed(p)
    ensures ConvertNodeTreeToPLN(Some(ToInternal(p))) == Converted(Some(p))
    decreases p
  {
    if IsConjunction(p.nodeType) {
      ConvertToInternal(p.leftChild.value);
      ConvertToInternal(p.rightChild.value);
    }
  }

  /** Internal trees in the form ToInternal produces: no identifier text or
      plus flag on conjunctions and no children under identifiers. */
  predicate Canonical(t: LicenseNode)
    decreases t
  {
    if t.nodeType == "IDENTIFIER" then t.leftChild.None? && t.rightChild.None?
    else if t.nodeType == "AND" || t.nodeType == "OR" || t.nodeType == "WITH" then
      && t.identifier == "" && !t.plus
      && t.leftChild.Some? && t.rightChild.Some?
      && Canonical(t.leftChild.value) && Canonical(t.rightChild.value)
    else false
  }

  /** Conversion loses nothing of a canonical internal tree. */
  lemma {:induction false} ToInternalConvert(t: LicenseNode)
    requires Canonical(t)
    ensures ConvertNodeTreeToPLN(Some(t)).Converted?
    ensures ToInternal(ConvertNodeTreeToPLN(Some(t)).node.value) == t
    decreases t
  {
    if t.nodeType != "IDENTIFIER" {
      ToInternalConvert(t.leftChild.value);
      ToInternalConvert(t.rightChild.value);
    }
  }

  /** GetNodesForExpression: lex, then parse with the given parser, then
      convert, stopping at the first failure with a message naming the
      stage. The parser is not part of this model and is a parameter. */
  function GetNodesForExpression(expr: string,
                                 parseTokens: seq<Normalize.ExprToken> -> Result<Option<LicenseNode>>)
    : (r: Conversion)
    ensures r.Converted? <==>
              && Normalize.Tokenize(expr, 0).Ok?
              && parseTokens(Normalize.Tokenize(expr, 0).value).Ok?
              && ConvertNodeTreeToPLN(parseTokens(Normalize.Tokenize(expr, 0).value).value).Converted?
    ensures r.Converted? ==>
              r == ConvertNodeTreeToPLN(parseTokens(Normalize.Tokenize(expr, 0).value).value)
    ensures r.Converted? && r.node.Some? ==> WellFormed(r.node.value)
    ensures Normalize.Tokenize(expr, 0).Err? ==>
              r == Failed("error lexing expression: " + Normalize.Tokenize(expr, 0).msg)
    ensures Normalize.Tokenize(expr, 0).Ok? && parseTokens(Normalize.Tokenize(expr, 0).value).Err? ==>
              r == Failed("error parsing expression: " + parseTokens(Normalize.Tokenize(expr, 0).value).msg)
    ensures Normalize.Tokenize(expr, 0).Ok? && parseTokens(Normalize.Tokenize(expr, 0).value).Ok?
            && ConvertNodeTreeToPLN(parseTokens(Normalize.Tokenize(expr, 0).value).value).Failed? ==>
              r == Failed("error converting to node format: "
                          + ConvertNodeTreeToPLN(parseTokens(Normalize.Tokenize(expr, 0).value).value).msg)
    ensures Normalize.Tokenize(expr, 0).Ok? && parseTokens(Normalize.Tokenize(expr, 0).value).Ok?
            && ConvertNodeTreeToPLN(parseTokens(Normalize.Tokenize(expr, 0).value).value).NilDereference? ==>
              r == NilDereference
  {
    match Normalize.Tokenize(expr, 0)
    case Err(e) => Failed("error lexing expression: " + e)
    case Ok(tokens) =>
      match parseTokens(tokens)
      case Err(e) => Failed("error parsing expression: " + e)
      case Ok(nodeTree) =>
        match ConvertNodeTreeToPLN(nodeTree)
        case Failed(e) => Failed("error converting to node format: " + e)
        case other => other
  }
}
