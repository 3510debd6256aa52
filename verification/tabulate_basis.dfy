/** Table helpers of the quadrature representation
    (ffc/quadrature/tabulate_basis.py): `insert_nested_dict`,
    `domain_to_entity_dim` and the branch selection of `_map_entity_points`. */
module TabulateBasis {
  import opened Wrappers

  // ---------------------------------------------------------------------
  // insert_nested_dict
  // ---------------------------------------------------------------------

  /** A value stored in a nested dictionary: Python's None, a leaf (a table,
      or any other object that is not a dict), or a nested dict. */
  datatype Entry<K, V> = Null | Leaf(data: V) | Dict(entries: map<K, Entry<K, V>>)

  datatype InsertError<K> =
    | EmptyKeys          // keys[-1] of an empty key list: IndexError
    | NotADict(key: K)   // the entry at this key on the path is a leaf

  /** root.get(k): a missing key reads as None. */
  function GetOrNull<K(==, !new), V>(m: map<K, Entry<K, V>>, k: K): Entry<K, V> {
    if k in m then m[k] else Null
  }

  /** Every intermediate entry on the path is missing, None or a dict. */
  predicate PathClear<K(==, !new), V>(root: map<K, Entry<K, V>>, keys: seq<K>)
    decreases |keys|
  {
    |keys| <= 1 ||
    match GetOrNull(root, keys[0])
    case Null => PathClear<K, V>(map[], keys[1..])
    case Dict(m) => PathClear(m, keys[1..])
    case Leaf(_) => false
  }

  /** ffc/quadrature/tabulate_basis.py:137-144: walk keys[:-1], creating an
      empty dict where the entry is missing or None and descending into the
      dict found otherwise, then store the value under keys[-1]. */
  function InsertNested<K(==, !new), V>(root: map<K, Entry<K, V>>, keys: seq<K>, value: Entry<K, V>)
    : (r: Result<map<K, Entry<K, V>>, InsertError<K>>)
    ensures r.Ok? <==> |keys| > 0 && PathClear(root, keys)
    ensures |keys| == 0 ==> r == Err(EmptyKeys)
    ensures r.Ok? ==> keys[0] in r.value
    ensures r.Ok? ==> forall k :: k != keys[0] ==> (k in r.value <==> k in root) && (k in root ==> r.value[k] == root[k])
    decreases |keys|
  {
    if |keys| == 0 then Err(EmptyKeys)
    else if |keys| == 1 then Ok(root[keys[0] := value])
    else
      match GetOrNull(root, keys[0])
      case Null =>
        var sub :- InsertNested(map[], keys[1..], value);
        Ok(root[keys[0] := Dict(sub)])
      case Dict(m) =>
        var sub :- InsertNested(m, keys[1..], value);
        Ok(root[keys[0] := Dict(sub)])
      case Leaf(_) => Err(NotADict(keys[0]))
  }

  /** Following a non-empty key path through nested dicts. */
  function Lookup<K(==, !new), V>(root: map<K, Entry<K, V>>, keys: seq<K>): Option<Entry<K, V>>
    requires |keys| > 0
    decreases |keys|
  {
    if keys[0] !in root then None
    else if |keys| == 1 then Some(root[keys[0]])
    else
      match root[keys[0]]
      case Dict(m) => Lookup(m, keys[1..])
      case _ => None
  }

  /** After a successful insertion, following the keys yields the value; an
      entry already at the full path is overwritten. */
  lemma {:induction false} InsertThenLookup<K(!new), V>(root: map<K, Entry<K, V>>, keys: seq<K>, value: Entry<K, V>)
    requires InsertNested(root, keys, value).Ok?
    ensures Lookup(InsertNested(root, keys, value).value, keys) == Some(value)
    decreases |keys|
  {
    if |keys| > 1 {
      match GetOrNull(root, keys[0])
      case Null => InsertThenLookup(map[], keys[1..], value);
      case Dict(m) => InsertThenLookup(m, keys[1..], value);
    }
  }

  /** Two key paths part ways at position j: they agree before it and differ
      at it. */
  predicate Diverge<K(==)>(q: seq<K>, keys: seq<K>, j: nat) {
    j < |q| && j < |keys| && q[..j] == keys[..j] && q[j] != keys[j]
  }

  /** Every entry reached by a path that parts from the key path, at any
      level, is what it was before: siblings of every level on the path are
      unchanged. */
  lemma {:induction false} InsertKeepsOthers<K(!new), V>(root: map<K, Entry<K, V>>, keys: seq<K>, value: Entry<K, V>,
                                                   q: seq<K>, j: nat)
    requires InsertNested(root, keys, value).Ok?
    requires Diverge(q, keys, j)
    ensures Lookup(InsertNested(root, keys, value).value, q) == Lookup(root, q)
    decreases |keys|
  {
    var r := InsertNested(root, keys, value).value;
    if j > 0 {
      assert q[0] == q[..j][0] == keys[..j][0] == keys[0];
      assert Diverge(q[1..], keys[1..], j - 1) by {
        assert q[1..][..j - 1] == q[..j][1..] && keys[1..][..j - 1] == keys[..j][1..];
      }
      match GetOrNull(root, keys[0])
      case Null =>
        InsertKeepsOthers(map[], keys[1..], value, q[1..], j - 1);
        EmptyLookup<K, V>(map[], q[1..]);
      case Dict(m) =>
        InsertKeepsOthers(m, keys[1..], value, q[1..], j - 1);
    }
  }

  lemma EmptyLookup<K(!new), V>(m: map<K, Entry<K, V>>, q: seq<K>)
    requires |q| > 0 && m == map[]
    ensures Lookup(m, q) == None
  {
  }

  /** An intermediate level that was missing or None becomes a new dict whose
      only key is the next key of the path; an intermediate dict that existed
      keeps all its keys and gains the next one. */
  lemma {:induction false} InsertLevels<K(!new), V>(root: map<K, Entry<K, V>>, keys: seq<K>, value: Entry<K, V>)
    requires InsertNested(root, keys, value).Ok? && |keys| > 1
    ensures InsertNested(root, keys, value).value[keys[0]].Dict?
    ensures GetOrNull(root, keys[0]).Null? ==>
      InsertNested(root, keys, value).value[keys[0]].entries.Keys == {keys[1]}
    ensures GetOrNull(root, keys[0]).Dict? ==>
      InsertNested(root, keys, value).value[keys[0]].entries.Keys == GetOrNull(root, keys[0]).entries.Keys + {keys[1]}
  {
    var sub := InsertNested(root, keys, value).value[keys[0]].entries;
    match GetOrNull(root, keys[0])
    case Null =>
      assert sub == InsertNested(map[], keys[1..], value).value;
      assert forall k :: k in sub ==> k == keys[1];
    case Dict(m) =>
      assert sub == InsertNested(m, keys[1..], value).value;
      assert forall k :: k in sub <==> k in m || k == keys[1];
  }

  // ---------------------------------------------------------------------
  // domain_to_entity_dim and _map_entity_points
  // ---------------------------------------------------------------------

  /** The facet integral types of line 82. */
  const FacetTypes: seq<string> := ["exterior_facet", "interior_facet", "exterior_facet_top",
                                    "exterior_facet_bottom", "exterior_facet_vert",
                                    "interior_facet_horiz", "interior_facet_vert"]

  datatype DomainError = UnknownIntegralType(integralType: string)

  /** ffc/quadrature/tabulate_basis.py:78-88: the dimension of the entities
      an integral type integrates over; tdim - 1 is Python integer
      arithmetic, so it is -1 for a cell of dimension 0. */
  function DomainToEntityDim(integralType: string, tdim: nat): (r: Result<int, DomainError>)
    ensures r.Ok? <==> integralType == "cell" || integralType in FacetTypes || integralType == "point"
    ensures r.Err? ==> r.error == UnknownIntegralType(integralType)
    ensures integralType == "cell" ==> r == Ok(tdim)
    ensures integralType in FacetTypes ==> r == Ok(tdim - 1)
    ensures integralType == "point" ==> r == Ok(0)
  {
    if integralType == "cell" then Ok(tdim)
    else if integralType in FacetTypes then Ok(tdim - 1)
    else if integralType == "point" then Ok(0)
    else Err(UnknownIntegralType(integralType))
  }

  /** Which branch of `_map_entity_points` runs: the points unchanged, a
      facet mapping of the given kind, the vertex of the entity, or none
      (the function then returns None). The facet and vertex maps are
      computed by code this model leaves out. */
  datatype PointMap =
    | PassThrough(points: seq<seq<real>>)
    | FacetMap(kind: string, entity: nat)
    | VertexOf(entity: nat)
    | NoBranch

  /** ffc/quadrature/tabulate_basis.py:90-104. */
  function MapEntityPoints(points: seq<seq<real>>, entityDim: int, tdim: nat, entity: nat, integralType: string)
    : (p: PointMap)
    ensures entityDim == tdim ==> p == PassThrough(points)
    ensures p.PassThrough? ==> entityDim == tdim && p.points == points
    ensures p.FacetMap? <==> entityDim != tdim && entityDim == tdim - 1
    ensures p.VertexOf? <==> entityDim != tdim && entityDim != tdim - 1 && entityDim == 0
  {
    if entityDim == tdim then PassThrough(points)
    else if entityDim == tdim - 1 then
      if integralType in ["exterior_facet_top", "exterior_facet_bottom", "interior_facet_horiz"] then
        FacetMap("horiz_facet", entity)
      else if integralType in ["exterior_facet_vert", "interior_facet_vert"] then FacetMap("vert_facet", entity)
      else FacetMap("facet", entity)
    else if entityDim == 0 then VertexOf(entity)
    else NoBranch
  }

  /** For every known integral type, the entity dimension it is given selects
      a branch of `_map_entity_points`; a cell integral passes the points
      through unchanged and a facet integral maps them to a facet. */
  lemma EntityDispatch(integralType: string, tdim: nat, points: seq<seq<real>>, entity: nat)
    requires DomainToEntityDim(integralType, tdim).Ok?
    ensures MapEntityPoints(points, DomainToEntityDim(integralType, tdim).value, tdim, entity, integralType) != NoBranch
    ensures integralType == "cell" ==>
      MapEntityPoints(points, DomainToEntityDim(integralType, tdim).value, tdim, entity, integralType) == PassThrough(points)
    ensures integralType in FacetTypes ==>
      MapEntityPoints(points, DomainToEntityDim(integralType, tdim).value, tdim, entity, integralType).FacetMap?
  {
  }
}
