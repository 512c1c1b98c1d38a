// The directory tree of the Python client
// (cosilico-py/src/cosilico_py/client/structure.py): the flat rows of the
// directory-entities table become a tree under a synthetic root, every node
// annotated with the permission the user holds on it; `get_node` turns an
// absolute path into one the tree resolver accepts.
//
// The nested dictionaries of the source are kept flat here: a node refers to
// its children by id, and the tree is the root's child list plus a map from
// id to node. A `children` key that the source pops is a `None`.
module DirectoryTree {
  import opened Wrappers
  import JsArray

  /** One row of the table; a list column the row lacks is empty and a
      missing or null `permission` is "". `fields` holds every column of the
      row that `keep_keys` may copy. */
  datatype Row = Row(
    id: string, name: string, entityType: string, parentId: Option<string>,
    readers: seq<string>, writers: seq<string>, deleters: seq<string>,
    permission: string, fields: map<string, string>)

  /** A node of the returned tree. */
  datatype Node = Node(
    name: string, entityType: string, children: Option<seq<string>>,
    kept: map<string, string>, userPermission: string)

  datatype Tree = Tree(rootName: string, rootChildren: Option<seq<string>>, nodes: map<string, Node>)

  /** `node_lookup[r["parent_id"]]` raises KeyError for an unknown parent;
      a walk up a cycle of parents without any grant never returns. */
  datatype BuildError = MissingParent(parent: string) | NoTermination

  // ---------- permission characters ------------------------------------------

  /** `_collect_perm_chars`: r, w and d for the three lists the user is in,
      in that order. */
  function PermChars(row: Row, user: string): string
  {
    (if user in row.readers then "r" else "")
    + (if user in row.writers then "w" else "")
    + (if user in row.deleters then "d" else "")
  }

  function Rank(c: char): int
  {
    if c == 'r' then 0 else if c == 'w' then 1 else 2
  }

  /** Each character stands for exactly the list the user is in, and they
      come in r, w, d order without repeats (the order of the checks, not a
      sort). */
  lemma PermCharsMeaning(row: Row, user: string)
    ensures 'r' in PermChars(row, user) <==> user in row.readers
    ensures 'w' in PermChars(row, user) <==> user in row.writers
    ensures 'd' in PermChars(row, user) <==> user in row.deleters
    ensures forall c :: c in PermChars(row, user) ==> c in "rwd"
    ensures forall i, j :: 0 <= i < j < |PermChars(row, user)| ==>
      Rank(PermChars(row, user)[i]) < Rank(PermChars(row, user)[j])
    ensures PermChars(row, user) == "" <==> user !in row.readers && user !in row.writers && user !in row.deleters
  {
    var r := if user in row.readers then "r" else "";
    var w := if user in row.writers then "w" else "";
    var d := if user in row.deleters then "d" else "";
    assert PermChars(row, user) == r + w + d;
    assert forall c :: c in r + w + d <==> c in r || c in w || c in d;
  }

  // ---------- walking up the parents -----------------------------------------

  /** Pass 1 looks at the user's grants, pass 2 at the default permission. */
  datatype Pass = GrantPass(user: string) | DefaultPass

  function Mark(row: Row, pass: Pass): string
  {
    match pass
    case GrantPass(user) => PermChars(row, user)
    case DefaultPass => row.permission
  }

  /** Every parent named by a row is a row. */
  ghost predicate Closed(byId: map<string, Row>)
  {
    forall id {:trigger byId[id]} :: id in byId && byId[id].parentId.Some? ==> byId[id].parentId.value in byId
  }

  /** The end of a walk: a non-empty mark, the top reached with nothing
      found, or the steps used up. */
  datatype WalkEnd = Found(mark: string) | Exhausted | Stuck

  /** The `while cur is not None` loop, allowed `fuel` steps. */
  function Walk(byId: map<string, Row>, pass: Pass, cur: string, fuel: nat): WalkEnd
    requires Closed(byId) && cur in byId
    decreases fuel
  {
    if fuel == 0 then Stuck
    else if Mark(byId[cur], pass) != "" then Found(Mark(byId[cur], pass))
    else match byId[cur].parentId
      case None => Exhausted
      case Some(p) => Walk(byId, pass, p, fuel - 1)
  }

  /** The node k steps up from `cur`, or None past the top. */
  function Up(byId: map<string, Row>, cur: string, k: nat): (r: Option<string>)
    requires Closed(byId) && cur in byId
    ensures r.Some? ==> r.value in byId
    decreases k
  {
    if k == 0 then Some(cur)
    else match byId[cur].parentId
      case None => None
      case Some(p) => Up(byId, p, k - 1)
  }

  /** Node k of the path is the first one with a non-empty mark. */
  ghost predicate NearestMarked(byId: map<string, Row>, pass: Pass, cur: string, k: nat)
    requires Closed(byId) && cur in byId
  {
    && Up(byId, cur, k).Some?
    && Mark(byId[Up(byId, cur, k).value], pass) != ""
    && forall j :: 0 <= j < k ==> Up(byId, cur, j).Some? && Mark(byId[Up(byId, cur, j).value], pass) == ""
  }

  /** A walk finds a mark exactly when some node within reach is the nearest
      marked one on the self-to-root path, and it returns that node's mark. */
  lemma {:induction false} WalkFindsNearest(byId: map<string, Row>, pass: Pass, cur: string, fuel: nat)
    requires Closed(byId) && cur in byId
    ensures Walk(byId, pass, cur, fuel).Found? <==> exists k :: 0 <= k < fuel && NearestMarked(byId, pass, cur, k)
    ensures forall k :: 0 <= k < fuel && NearestMarked(byId, pass, cur, k) ==>
      Walk(byId, pass, cur, fuel) == Found(Mark(byId[Up(byId, cur, k).value], pass))
    decreases fuel
  {
    if fuel > 0 {
      assert Up(byId, cur, 0) == Some(cur);
      if Mark(byId[cur], pass) != "" {
        assert NearestMarked(byId, pass, cur, 0);
        forall k | 0 < k
          ensures !NearestMarked(byId, pass, cur, k)
        {
          assert Up(byId, cur, 0) == Some(cur);
        }
      } else {
        forall k | 0 <= k < fuel && NearestMarked(byId, pass, cur, k)
          ensures k > 0
        {
        }
        match byId[cur].parentId
        case None =>
          forall k | 0 < k
            ensures !NearestMarked(byId, pass, cur, k)
          {
          }
        case Some(p) =>
          WalkFindsNearest(byId, pass, p, fuel - 1);
          forall k | 0 < k
            ensures NearestMarked(byId, pass, cur, k) <==> NearestMarked(byId, pass, p, k - 1)
          {
            UpStep(byId, cur, p, k);
            forall j | 0 < j
              ensures Up(byId, cur, j) == Up(byId, p, j - 1)
            {
              UpStep(byId, cur, p, j);
            }
            if NearestMarked(byId, pass, p, k - 1) {
              forall j | 0 <= j < k
                ensures Up(byId, cur, j).Some? && Mark(byId[Up(byId, cur, j).value], pass) == ""
              {
                if j > 0 {
                  assert Up(byId, cur, j) == Up(byId, p, j - 1);
                }
              }
            }
            if NearestMarked(byId, pass, cur, k) {
              forall j | 0 <= j < k - 1
                ensures Up(byId, p, j).Some? && Mark(byId[Up(byId, p, j).value], pass) == ""
              {
                assert Up(byId, cur, j + 1) == Up(byId, p, j);
              }
            }
          }
          if exists k :: 0 <= k < fuel - 1 && NearestMarked(byId, pass, p, k) {
            var k :| 0 <= k < fuel - 1 && NearestMarked(byId, pass, p, k);
            assert NearestMarked(byId, pass, cur, k + 1);
          }
      }
    }
  }

  /** One step up from a node whose parent is p. */
  lemma UpStep(byId: map<string, Row>, cur: string, p: string, k: nat)
    requires Closed(byId) && cur in byId && byId[cur].parentId == Some(p)
    requires k > 0
    ensures p in byId && Up(byId, cur, k) == Up(byId, p, k - 1)
  {
  }

  /** Walking k steps from the node i steps up is walking i + k steps. */
  lemma {:induction false} UpCompose(byId: map<string, Row>, cur: string, i: nat, k: nat)
    requires Closed(byId) && cur in byId && Up(byId, cur, i).Some?
    ensures Up(byId, cur, i + k) == Up(byId, Up(byId, cur, i).value, k)
    decreases i
  {
    if i > 0 {
      var p := byId[cur].parentId.value;
      UpStep(byId, cur, p, i);
      UpCompose(byId, p, i - 1, k);
      UpStep(byId, cur, p, i + k);
    }
  }

  /** More steps change nothing once a walk has ended. */
  lemma {:induction false} WalkMonotone(byId: map<string, Row>, pass: Pass, cur: string, f: nat, g: nat)
    requires Closed(byId) && cur in byId
    requires f <= g && Walk(byId, pass, cur, f) != Stuck
    ensures Walk(byId, pass, cur, g) == Walk(byId, pass, cur, f)
    decreases f
  {
    if Mark(byId[cur], pass) == "" && byId[cur].parentId.Some? {
      WalkMonotone(byId, pass, byId[cur].parentId.value, f - 1, g - 1);
    }
  }

  /** A walk that used up its steps passed only unmarked nodes, and the path
      goes on past them. */
  lemma {:induction false} StuckPath(byId: map<string, Row>, pass: Pass, cur: string, n: nat)
    requires Closed(byId) && cur in byId
    requires Walk(byId, pass, cur, n) == Stuck
    ensures forall j :: 0 <= j <= n ==> Up(byId, cur, j).Some?
    ensures forall j :: 0 <= j < n ==> Mark(byId[Up(byId, cur, j).value], pass) == ""
    decreases n
  {
    assert Up(byId, cur, 0) == Some(cur);
    if n > 0 {
      var p := byId[cur].parentId.value;
      StuckPath(byId, pass, p, n - 1);
      forall j | 0 < j <= n
        ensures Up(byId, cur, j) == Up(byId, p, j - 1)
      {
        UpStep(byId, cur, p, j);
      }
    }
  }

  /** Past m unmarked nodes, a walk goes on as the walk from the node m steps
      up with m fewer steps. */
  lemma {:induction false} WalkShift(byId: map<string, Row>, pass: Pass, cur: string, m: nat, f: nat)
    requires Closed(byId) && cur in byId && m <= f
    requires forall j :: 0 <= j <= m ==> Up(byId, cur, j).Some?
    requires forall j :: 0 <= j < m ==> Mark(byId[Up(byId, cur, j).value], pass) == ""
    ensures Walk(byId, pass, cur, f) == Walk(byId, pass, Up(byId, cur, m).value, f - m)
    decreases m
  {
    if m > 0 {
      assert Up(byId, cur, 0) == Some(cur);
      assert Up(byId, cur, 1).Some?;
      var p := byId[cur].parentId.value;
      forall j | 0 <= j <= m - 1
        ensures Up(byId, p, j) == Up(byId, cur, j + 1)
      {
        UpStep(byId, cur, p, j + 1);
      }
      assert Walk(byId, pass, cur, f) == Walk(byId, pass, p, f - 1);
      WalkShift(byId, pass, p, m - 1, f - 1);
    }
  }

  /** A cycle of unmarked nodes: the walk never ends. */
  lemma {:induction false} CycleIsStuck(byId: map<string, Row>, pass: Pass, u: string, d: nat, f: nat)
    requires Closed(byId) && u in byId && d > 0
    requires Up(byId, u, d) == Some(u)
    requires forall j :: 0 <= j < d ==> Up(byId, u, j).Some? && Mark(byId[Up(byId, u, j).value], pass) == ""
    ensures Walk(byId, pass, u, f) == Stuck
    decreases f
  {
    if f < d {
      WalkShift(byId, pass, u, f, f);
    } else {
      WalkShift(byId, pass, u, d, f);
      CycleIsStuck(byId, pass, u, d, f - d);
    }
  }

  /** More values than keys: some value repeats. */
  lemma {:induction false} Pigeonhole(s: seq<string>, keys: set<string>)
    requires forall i :: 0 <= i < |s| ==> s[i] in keys
    requires |s| > |keys|
    ensures exists i, j :: 0 <= i < j < |s| && s[i] == s[j]
  {
    var last := s[|s| - 1];
    var init := s[..|s| - 1];
    if last in init {
      var i :| 0 <= i < |init| && init[i] == last;
      assert s[i] == s[|s| - 1];
    } else {
      Pigeonhole(init, keys - {last});
      var i, j :| 0 <= i < j < |init| && init[i] == init[j];
      assert s[i] == s[j];
    }
  }

  /** Two equal nodes i and j steps up, with no mark below j, make a cycle
      of j - i unmarked nodes. */
  lemma CycleFromRepeat(byId: map<string, Row>, pass: Pass, cur: string, i: nat, j: nat)
    requires Closed(byId) && cur in byId && i < j
    requires forall k :: 0 <= k <= j ==> Up(byId, cur, k).Some?
    requires forall k :: 0 <= k < j ==> Mark(byId[Up(byId, cur, k).value], pass) == ""
    requires Up(byId, cur, i) == Up(byId, cur, j)
    ensures Up(byId, Up(byId, cur, i).value, j - i) == Up(byId, cur, i)
    ensures forall t :: 0 <= t < j - i ==>
      Up(byId, Up(byId, cur, i).value, t).Some? && Mark(byId[Up(byId, Up(byId, cur, i).value, t).value], pass) == ""
  {
    var u := Up(byId, cur, i).value;
    UpCompose(byId, cur, i, j - i);
    forall t | 0 <= t < j - i
      ensures Up(byId, u, t).Some? && Mark(byId[Up(byId, u, t).value], pass) == ""
    {
      UpCompose(byId, cur, i, t);
    }
  }

  /** A walk still going after as many steps as there are rows has come
      back to a node i steps up after d more unmarked nodes. */
  lemma FindCycle(byId: map<string, Row>, pass: Pass, cur: string) returns (i: nat, d: nat)
    requires Closed(byId) && cur in byId
    requires Walk(byId, pass, cur, |byId|) == Stuck
    ensures d > 0 && i + d <= |byId|
    ensures forall j :: 0 <= j <= i ==> Up(byId, cur, j).Some?
    ensures forall j :: 0 <= j < i ==> Mark(byId[Up(byId, cur, j).value], pass) == ""
    ensures Up(byId, Up(byId, cur, i).value, d) == Up(byId, cur, i)
    ensures forall t :: 0 <= t < d ==>
      Up(byId, Up(byId, cur, i).value, t).Some? && Mark(byId[Up(byId, Up(byId, cur, i).value, t).value], pass) == ""
  {
    StuckPath(byId, pass, cur, |byId|);
    var i', j := RepeatOnPath(byId, cur, |byId|);
    CycleFromRepeat(byId, pass, cur, i', j);
    i, d := i', j - i';
  }

  /** A path of more nodes than there are rows visits some node twice. */
  lemma RepeatOnPath(byId: map<string, Row>, cur: string, n: nat) returns (i: nat, j: nat)
    requires Closed(byId) && cur in byId && n == |byId|
    requires forall k :: 0 <= k <= n ==> Up(byId, cur, k).Some?
    ensures i < j <= n && Up(byId, cur, i) == Up(byId, cur, j)
  {
    var path := seq(n + 1, k requires 0 <= k <= n => Up(byId, cur, k).value);
    Pigeonhole(path, byId.Keys);
    i, j :| 0 <= i < j < |path| && path[i] == path[j];
  }

  /** A walk still going after as many steps as there are rows has entered a
      cycle without marks: it never ends, whatever the number of steps. */
  lemma StuckForever(byId: map<string, Row>, pass: Pass, cur: string, f: nat)
    requires Closed(byId) && cur in byId
    requires Walk(byId, pass, cur, |byId|) == Stuck
    ensures Walk(byId, pass, cur, f) == Stuck
  {
    var i, d := FindCycle(byId, pass, cur);
    StuckPath(byId, pass, cur, |byId|);
    if f <= i {
      WalkShift(byId, pass, cur, f, f);
    } else {
      WalkShift(byId, pass, cur, i, f);
      CycleIsStuck(byId, pass, Up(byId, cur, i).value, d, f - i);
    }
  }

  /** A walk that ends at all ends the same way within as many steps as
      there are rows. */
  lemma WalkSettles(byId: map<string, Row>, pass: Pass, cur: string, f: nat)
    requires Closed(byId) && cur in byId
    requires Walk(byId, pass, cur, f) != Stuck
    ensures Walk(byId, pass, cur, |byId|) == Walk(byId, pass, cur, f)
  {
    if Walk(byId, pass, cur, |byId|) == Stuck {
      StuckForever(byId, pass, cur, f);
    } else if f <= |byId| {
      WalkMonotone(byId, pass, cur, f, |byId|);
    } else {
      WalkMonotone(byId, pass, cur, |byId|, f);
    }
  }

  /** Pass 2 follows the same parents as pass 1: when pass 1 reaches the
      top, pass 2 ends too. */
  lemma {:induction false} DefaultPassEnds(byId: map<string, Row>, user: string, cur: string, f: nat)
    requires Closed(byId) && cur in byId
    requires Walk(byId, GrantPass(user), cur, f) == Exhausted
    ensures Walk(byId, DefaultPass, cur, f) != Stuck
    decreases f
  {
    if byId[cur].parentId.Some? && byId[cur].permission == "" {
      DefaultPassEnds(byId, user, byId[cur].parentId.value, f - 1);
    }
  }

  // ---------- the permission of one node -------------------------------------

  /** `_resolve_user_permission`: the grants first, then the default
      permissions, then "". None: the walk never returns. */
  function Resolve(byId: map<string, Row>, user: string, id: string): Option<string>
    requires Closed(byId) && id in byId
  {
    match Walk(byId, GrantPass(user), id, |byId|)
    case Found(s) => Some(s)
    case Stuck => None
    case Exhausted =>
      match Walk(byId, DefaultPass, id, |byId|)
      case Found(s) => Some(s)
      case Exhausted => Some("")
      case Stuck => None
  }

  /** The nearest grant on the self-to-root path decides. */
  lemma ResolveNearestGrant(byId: map<string, Row>, user: string, id: string, k: nat)
    requires Closed(byId) && id in byId
    requires NearestMarked(byId, GrantPass(user), id, k)
    ensures Resolve(byId, user, id) == Some(PermChars(byId[Up(byId, id, k).value], user))
  {
    WalkFindsNearest(byId, GrantPass(user), id, k + 1);
    WalkSettles(byId, GrantPass(user), id, k + 1);
  }

  /** With no grant up to the top, the nearest non-empty default permission
      decides. */
  lemma ResolveNearestDefault(byId: map<string, Row>, user: string, id: string, f: nat, k: nat)
    requires Closed(byId) && id in byId
    requires Walk(byId, GrantPass(user), id, f) == Exhausted
    requires NearestMarked(byId, DefaultPass, id, k)
    ensures Resolve(byId, user, id) == Some(byId[Up(byId, id, k).value].permission)
  {
    WalkSettles(byId, GrantPass(user), id, f);
    WalkFindsNearest(byId, DefaultPass, id, k + 1);
    WalkSettles(byId, DefaultPass, id, k + 1);
  }

  /** With no grant and no default permission up to the top: no access. */
  lemma ResolveNothing(byId: map<string, Row>, user: string, id: string, f: nat, g: nat)
    requires Closed(byId) && id in byId
    requires Walk(byId, GrantPass(user), id, f) == Exhausted
    requires Walk(byId, DefaultPass, id, g) == Exhausted
    ensures Resolve(byId, user, id) == Some("")
  {
    WalkSettles(byId, GrantPass(user), id, f);
    WalkSettles(byId, DefaultPass, id, g);
  }

  /** The permission is missing exactly when the grant walk never ends. */
  lemma ResolveDiverges(byId: map<string, Row>, user: string, id: string)
    requires Closed(byId) && id in byId
    ensures Resolve(byId, user, id).None? <==> forall f: nat :: Walk(byId, GrantPass(user), id, f) == Stuck
  {
    var n := |byId|;
    if Walk(byId, GrantPass(user), id, n) == Stuck {
      forall f: nat
        ensures Walk(byId, GrantPass(user), id, f) == Stuck
      {
        StuckForever(byId, GrantPass(user), id, f);
      }
    } else if Walk(byId, GrantPass(user), id, n) == Exhausted {
      DefaultPassEnds(byId, user, id, n);
    }
  }

  /** The two `while cur is not None` loops. The step counter is not in the
      source: it stops a walk once it has taken as many steps as there are
      rows, which by StuckForever only a walk that never ends does. */
  method ResolveUserPermission(byId: map<string, Row>, user: string, nodeId: string) returns (r: Option<string>)
    requires Closed(byId) && nodeId in byId
    ensures r == Resolve(byId, user, nodeId)
  {
    var n := |byId|;
    // Pass 1: explicit user grants.
    var cur: Option<string> := Some(nodeId);
    var steps := 0;
    while cur.Some? && steps < n
      invariant steps <= n
      invariant cur.Some? ==> cur.value in byId
      invariant Walk(byId, GrantPass(user), nodeId, n)
        == if cur.Some? then Walk(byId, GrantPass(user), cur.value, n - steps) else Exhausted
      decreases n - steps
    {
      var chars := PermChars(byId[cur.value], user);
      if chars != "" {
        return Some(chars);
      }
      cur := byId[cur.value].parentId;
      steps := steps + 1;
    }
    if cur.Some? {
      return None;
    }
    // Pass 2: the default permission strings.
    cur := Some(nodeId);
    steps := 0;
    while cur.Some? && steps < n
      invariant steps <= n
      invariant cur.Some? ==> cur.value in byId
      invariant Walk(byId, DefaultPass, nodeId, n)
        == if cur.Some? then Walk(byId, DefaultPass, cur.value, n - steps) else Exhausted
      decreases n - steps
    {
      var perm := byId[cur.value].permission;
      if perm != "" {
        return Some(perm);
      }
      cur := byId[cur.value].parentId;
      steps := steps + 1;
    }
    if cur.Some? {
      return None;
    }
    return Some("");
  }

  // ---------- building the tree ----------------------------------------------

  function Ids(rows: seq<Row>): (r: seq<string>)
    ensures |r| == |rows| && forall j :: 0 <= j < |rows| ==> r[j] == rows[j].id
  {
    seq(|rows|, j requires 0 <= j < |rows| => rows[j].id)
  }

  /** `{r["id"]: r for r in rows}`: a later row with the same id wins. */
  function ById(rows: seq<Row>): (r: map<string, Row>)
    ensures forall id :: id in r <==> id in Ids(rows)
  {
    if |rows| == 0 then map[]
    else
      var init := rows[..|rows| - 1];
      var last := rows[|rows| - 1];
      assert forall id :: id in Ids(rows) <==> id in Ids(init) || id == last.id by {
        assert Ids(rows) == Ids(init) + [last.id];
      }
      ById(init)[last.id := last]
  }

  /** With unique ids, each row is found under its own id. */
  lemma {:induction false} ByIdFindsRow(rows: seq<Row>, j: nat)
    requires JsArray.NoDup(Ids(rows)) && j < |rows|
    ensures rows[j].id in ById(rows) && ById(rows)[rows[j].id] == rows[j]
  {
    var init := rows[..|rows| - 1];
    if j < |rows| - 1 {
      assert Ids(init) == Ids(rows)[..|rows| - 1];
      ByIdFindsRow(init, j);
      assert Ids(rows)[j] != Ids(rows)[|rows| - 1];
    }
  }

  predicate ParentKnown(row: Row, ids: set<string>)
  {
    row.parentId.Some? ==> row.parentId.value in ids
  }

  /** The parent id of the first row, in row order, whose parent is not a
      row: the KeyError of the attach loop. */
  function FirstMissing(rows: seq<Row>, ids: set<string>): Option<string>
  {
    if |rows| == 0 then None
    else if !ParentKnown(rows[0], ids) then rows[0].parentId
    else FirstMissing(rows[1..], ids)
  }

  /** There is no error exactly when every parent is a row; an error names
      the unknown parent of a row after which all earlier rows were fine. */
  lemma {:induction false} FirstMissingMeaning(rows: seq<Row>, ids: set<string>)
    ensures FirstMissing(rows, ids).None? <==> forall j :: 0 <= j < |rows| ==> ParentKnown(rows[j], ids)
    ensures FirstMissing(rows, ids).Some? ==>
      (exists j :: 0 <= j < |rows| && rows[j].parentId == FirstMissing(rows, ids)
        && FirstMissing(rows, ids).value !in ids
        && forall i :: 0 <= i < j ==> ParentKnown(rows[i], ids))
  {
    if |rows| > 0 && ParentKnown(rows[0], ids) {
      var tail := rows[1..];
      FirstMissingMeaning(tail, ids);
      forall j | 0 < j < |rows| ensures rows[j] == tail[j - 1] { }
      if FirstMissing(tail, ids).Some? {
        var j :| 0 <= j < |tail| && tail[j].parentId == FirstMissing(tail, ids) && FirstMissing(tail, ids).value !in ids
          && forall i :: 0 <= i < j ==> ParentKnown(tail[i], ids);
        assert rows[j + 1].parentId == FirstMissing(rows, ids);
      }
    } else if |rows| > 0 {
      assert rows[0].parentId == FirstMissing(rows, ids);
    }
  }

  /** The first row whose parent is missing decides the error. */
  lemma {:induction false} FirstMissingAt(rows: seq<Row>, ids: set<string>, i: nat)
    requires i < |rows| && !ParentKnown(rows[i], ids)
    requires forall j :: 0 <= j < i ==> ParentKnown(rows[j], ids)
    ensures FirstMissing(rows, ids) == rows[i].parentId
  {
    if i > 0 {
      FirstMissingAt(rows[1..], ids, i - 1);
    }
  }

  /** When every parent is a row, the walks stay among the rows. */
  lemma ClosedWhenKnown(rows: seq<Row>)
    requires FirstMissing(rows, ById(rows).Keys).None?
    ensures Closed(ById(rows))
  {
    FirstMissingMeaning(rows, ById(rows).Keys);
    var byId := ById(rows);
    forall id | id in byId && byId[id].parentId.Some?
      ensures byId[id].parentId.value in byId
    {
      ByIdHoldsRow(rows, id);
    }
  }

  /** Every entry of the lookup is one of the rows. */
  lemma {:induction false} ByIdHoldsRow(rows: seq<Row>, id: string)
    requires id in ById(rows)
    ensures ById(rows)[id] in rows && ById(rows)[id].id == id
  {
    var init := rows[..|rows| - 1];
    if rows[|rows| - 1].id != id {
      ByIdHoldsRow(init, id);
    }
  }

  /** The positions of the rows whose parent is `parent`, in row order. */
  function ChildRows(rows: seq<Row>, parent: Option<string>): (r: seq<nat>)
    ensures forall x :: 0 <= x < |r| ==> r[x] < |rows|
  {
    if |rows| == 0 then []
    else
      var rest := ChildRows(rows[..|rows| - 1], parent);
      if rows[|rows| - 1].parentId == parent then rest + [|rows| - 1] else rest
  }

  /** Each row is attached exactly once: its position is in the list of its
      own parent and of no other, and no list repeats a position. */
  lemma {:induction false} AttachedOnce(rows: seq<Row>, parent: Option<string>)
    ensures forall j :: j in ChildRows(rows, parent) <==> 0 <= j < |rows| && rows[j].parentId == parent
    ensures forall a, b :: 0 <= a < b < |ChildRows(rows, parent)| ==> ChildRows(rows, parent)[a] < ChildRows(rows, parent)[b]
  {
    if |rows| > 0 {
      var init := rows[..|rows| - 1];
      AttachedOnce(init, parent);
      forall j | 0 <= j < |init| ensures init[j] == rows[j] { }
    }
  }

  /** The ids appended to `parent`'s children list, in row order. */
  function ChildrenOf(rows: seq<Row>, parent: Option<string>): seq<string>
  {
    if |rows| == 0 then []
    else
      var rest := ChildrenOf(rows[..|rows| - 1], parent);
      if rows[|rows| - 1].parentId == parent then rest + [rows[|rows| - 1].id] else rest
  }

  /** The children list holds the ids of the rows at ChildRows, in order. */
  lemma {:induction false} ChildrenAtRows(rows: seq<Row>, parent: Option<string>)
    ensures |ChildrenOf(rows, parent)| == |ChildRows(rows, parent)|
    ensures forall x :: 0 <= x < |ChildRows(rows, parent)| ==>
      ChildrenOf(rows, parent)[x] == rows[ChildRows(rows, parent)[x]].id
  {
    if |rows| > 0 {
      var init := rows[..|rows| - 1];
      ChildrenAtRows(init, parent);
      forall x | 0 <= x < |ChildRows(init, parent)|
        ensures init[ChildRows(init, parent)[x]] == rows[ChildRows(init, parent)[x]]
      {
      }
    }
  }

  /** Attaching row i appends its id to its parent's list and to no other. */
  lemma ChildrenSnoc(rows: seq<Row>, i: nat, parent: Option<string>)
    requires i < |rows|
    ensures ChildrenOf(rows[..i + 1], parent)
      == ChildrenOf(rows[..i], parent) + (if rows[i].parentId == parent then [rows[i].id] else [])
  {
    assert rows[..i + 1][..i] == rows[..i];
  }

  /** A node has children exactly when some row names it as parent. */
  lemma ChildrenOfEmpty(rows: seq<Row>, parent: Option<string>)
    ensures ChildrenOf(rows, parent) == [] <==> forall j :: 0 <= j < |rows| ==> rows[j].parentId != parent
  {
    AttachedOnce(rows, parent);
    ChildrenAtRows(rows, parent);
    if ChildRows(rows, parent) != [] {
      assert ChildRows(rows, parent)[0] in ChildRows(rows, parent);
    }
  }

  /** The `keep_keys` columns the row has, copied. */
  function Kept(row: Row, keepKeys: seq<string>): (r: map<string, string>)
    ensures forall k :: k in r <==> k in keepKeys && k in row.fields
    ensures forall k :: k in r ==> r[k] == row.fields[k]
  {
    map k | k in keepKeys && k in row.fields :: row.fields[k]
  }

  /** `_prune`: an empty children list is dropped. */
  function Pruned(children: seq<string>): (r: Option<seq<string>>)
    ensures r.Some? <==> |children| > 0
    ensures r.Some? ==> r.value == children
  {
    if children == [] then None else Some(children)
  }

  /** The node shell of a row, before attaching and annotating. */
  function Shell(row: Row, keepKeys: seq<string>): Node
  {
    Node(row.name, row.entityType, Some([]), Kept(row, keepKeys), "")
  }

  ghost predicate AllResolve(byId: map<string, Row>, user: string)
    requires Closed(byId)
  {
    forall id :: id in byId ==> Resolve(byId, user, id).Some?
  }

  /** The node the built tree holds for a row id. */
  ghost function NodeOf(rows: seq<Row>, user: string, keepKeys: seq<string>, id: string): Node
    requires Closed(ById(rows)) && id in ById(rows) && Resolve(ById(rows), user, id).Some?
  {
    var row := ById(rows)[id];
    Node(row.name, row.entityType, Pruned(ChildrenOf(rows, Some(id))), Kept(row, keepKeys),
         Resolve(ById(rows), user, id).value)
  }

  /** The node of every id. */
  ghost function NodesOf(rows: seq<Row>, user: string, keepKeys: seq<string>): (r: map<string, Node>)
    requires Closed(ById(rows)) && AllResolve(ById(rows), user)
    ensures r.Keys == ById(rows).Keys
    ensures forall id :: id in r ==> r[id] == NodeOf(rows, user, keepKeys, id)
  {
    map id | id in ById(rows) :: NodeOf(rows, user, keepKeys, id)
  }

  /** `build_directory_tree`, as a value. */
  ghost function BuildSpec(rows: seq<Row>, user: string, rootName: string, keepKeys: seq<string>): Result<Tree, BuildError>
  {
    match FirstMissing(rows, ById(rows).Keys)
    case Some(p) => Err(MissingParent(p))
    case None =>
      ClosedWhenKnown(rows);
      if !AllResolve(ById(rows), user) then Err(NoTermination)
      else Ok(Tree(rootName, Pruned(ChildrenOf(rows, None)), NodesOf(rows, user, keepKeys)))
  }

  /** The node shells, keyed by id: a later row with the same id wins. */
  method MakeShells(rows: seq<Row>, keepKeys: seq<string>) returns (nodes: map<string, Node>)
    ensures nodes.Keys == ById(rows).Keys
    ensures forall id :: id in nodes ==> nodes[id] == Shell(ById(rows)[id], keepKeys)
  {
    nodes := map[];
    var i := 0;
    while i < |rows|
      invariant 0 <= i <= |rows|
      invariant nodes.Keys == ById(rows[..i]).Keys
      invariant forall id :: id in nodes ==> nodes[id] == Shell(ById(rows[..i])[id], keepKeys)
    {
      var row := rows[i];
      var kept := CopyKeptKeys(row, keepKeys);
      assert rows[..i + 1][..i] == rows[..i];
      nodes := nodes[row.id := Node(row.name, row.entityType, Some([]), kept, "")];
      i := i + 1;
    }
    assert rows[..|rows|] == rows;
  }

  /** The two nodes differ at most in their children. */
  predicate SameFields(a: Node, b: Node)
  {
    a.name == b.name && a.entityType == b.entityType && a.kept == b.kept && a.userPermission == b.userPermission
  }

  /** Each row's id is appended to the root's list or to its parent's
      children; an unknown parent stops the loop. */
  method AttachChildren(rows: seq<Row>, shells: map<string, Node>)
    returns (missing: Option<string>, rootChildren: seq<string>, nodes: map<string, Node>)
    requires forall id :: id in shells ==> shells[id].children == Some([])
    ensures missing == FirstMissing(rows, shells.Keys)
    ensures missing.None? ==> rootChildren == ChildrenOf(rows, None)
    ensures missing.None? ==> AttachedUpTo(rows, |rows|, shells, nodes)
  {
    nodes := shells;
    rootChildren := [];
    var i := 0;
    while i < |rows|
      invariant 0 <= i <= |rows|
      invariant KnownUpTo(rows, i, shells.Keys)
      invariant rootChildren == ChildrenOf(rows[..i], None)
      invariant AttachedUpTo(rows, i, shells, nodes)
    {
      var m;
      m, rootChildren, nodes := AttachRow(rows, i, shells, rootChildren, nodes);
      if m.Some? {
        return m, rootChildren, nodes;
      }
      i := i + 1;
    }
    assert rows[..|rows|] == rows;
    FirstMissingMeaning(rows, shells.Keys);
    missing := None;
  }

  /** One turn of the attach loop: row i's id goes to the root's list or to
      its parent's children, or its parent is unknown. */
  method AttachRow(rows: seq<Row>, i: nat, shells: map<string, Node>, rootChildren: seq<string>, nodes: map<string, Node>)
    returns (missing: Option<string>, roots: seq<string>, after: map<string, Node>)
    requires i < |rows| && KnownUpTo(rows, i, shells.Keys)
    requires rootChildren == ChildrenOf(rows[..i], None) && AttachedUpTo(rows, i, shells, nodes)
    ensures missing.Some? ==> missing == FirstMissing(rows, shells.Keys)
    ensures missing.None? ==> KnownUpTo(rows, i + 1, shells.Keys)
    ensures missing.None? ==> roots == ChildrenOf(rows[..i + 1], None) && AttachedUpTo(rows, i + 1, shells, after)
  {
    var row := rows[i];
    ChildrenSnoc(rows, i, None);
    match row.parentId {
      case None =>
        AttachStep(rows, i, shells, nodes, nodes);
        missing, roots, after := None, rootChildren + [row.id], nodes;
      case Some(p) =>
        if p !in nodes {
          FirstMissingAt(rows, shells.Keys, i);
          return Some(p), rootChildren, nodes;
        }
        after := nodes[p := nodes[p].(children := Some(nodes[p].children.value + [row.id]))];
        AttachStep(rows, i, shells, nodes, after);
        missing, roots := None, rootChildren;
    }
    KnownStep(rows, i, shells.Keys);
  }

  /** The parents of the first i rows are all rows. */
  ghost predicate KnownUpTo(rows: seq<Row>, i: nat, ids: set<string>)
    requires i <= |rows|
  {
    forall j :: 0 <= j < i ==> ParentKnown(rows[j], ids)
  }

  lemma KnownStep(rows: seq<Row>, i: nat, ids: set<string>)
    requires i < |rows| && KnownUpTo(rows, i, ids) && ParentKnown(rows[i], ids)
    ensures KnownUpTo(rows, i + 1, ids)
  {
  }

  /** After attaching the first i rows, each node has the ids of those of
      them that name it as parent, and nothing else has changed. */
  ghost predicate AttachedUpTo(rows: seq<Row>, i: nat, shells: map<string, Node>, nodes: map<string, Node>)
    requires i <= |rows|
  {
    && nodes.Keys == shells.Keys
    && (forall id :: id in nodes ==> SameFields(nodes[id], shells[id]))
    && (forall id :: id in nodes ==> nodes[id].children == Some(ChildrenOf(rows[..i], Some(id))))
  }

  /** Attaching row i appends its id to its parent's list only. */
  lemma AttachStep(rows: seq<Row>, i: nat, shells: map<string, Node>, before: map<string, Node>, after: map<string, Node>)
    requires i < |rows| && AttachedUpTo(rows, i, shells, before)
    requires rows[i].parentId.None? ==> after == before
    requires rows[i].parentId.Some? ==> (rows[i].parentId.value in before &&
      after == before[rows[i].parentId.value := before[rows[i].parentId.value].(children :=
        Some(before[rows[i].parentId.value].children.value + [rows[i].id]))])
    ensures AttachedUpTo(rows, i + 1, shells, after)
  {
    forall id | id in after
      ensures after[id].children == Some(ChildrenOf(rows[..i + 1], Some(id)))
    {
      ChildrenSnoc(rows, i, Some(id));
      if rows[i].parentId == Some(id) {
        assert after[id].children == Some(before[id].children.value + [rows[i].id]);
      } else {
        assert after[id] == before[id];
        assert ChildrenOf(rows[..i], Some(id)) + [] == ChildrenOf(rows[..i], Some(id));
      }
    }
  }

  /** The permission every node resolves to, or None where the walk never
      returns. */
  ghost function Resolved(byId: map<string, Row>, user: string): (m: map<string, Option<string>>)
    requires Closed(byId)
    ensures m.Keys == byId.Keys
  {
    map id | id in byId :: Resolve(byId, user, id)
  }

  /** The nodes outside `todo` carry their permission from `perms`; nothing
      else differs from `attached`. */
  ghost predicate AnnotatedBut(perms: map<string, Option<string>>, attached: map<string, Node>,
                               nodes: map<string, Node>, todo: set<string>)
  {
    && todo <= perms.Keys && nodes.Keys == perms.Keys && attached.Keys == perms.Keys
    && (forall id :: id in nodes ==> SameButPermission(nodes[id], attached[id]))
    && (forall id :: id in nodes && id !in todo ==> perms[id] == Some(nodes[id].userPermission))
  }

  lemma AnnotateStep(perms: map<string, Option<string>>, attached: map<string, Node>,
                     nodes: map<string, Node>, todo: set<string>, id: string, perm: string)
    requires AnnotatedBut(perms, attached, nodes, todo)
    requires id in todo && perms[id] == Some(perm)
    ensures AnnotatedBut(perms, attached, nodes[id := nodes[id].(userPermission := perm)], todo - {id})
  {
    var next := nodes[id := nodes[id].(userPermission := perm)];
    forall x | x in next && x != id
      ensures next[x] == nodes[x]
    {
    }
  }

  /** `node["user_permission"] = _resolve_user_permission(node_id)` for
      every node; false when some walk never returns. The source visits the
      nodes in insertion order; the outcome does not depend on the order. */
  method Annotate(byId: map<string, Row>, user: string, attached: map<string, Node>)
    returns (ok: bool, nodes: map<string, Node>)
    requires Closed(byId) && attached.Keys == byId.Keys
    ensures ok <==> AllResolve(byId, user)
    ensures ok ==> AnnotatedBut(Resolved(byId, user), attached, nodes, {})
  {
    ghost var perms := Resolved(byId, user);
    nodes := attached;
    var todo := byId.Keys;
    while todo != {}
      invariant AnnotatedBut(perms, attached, nodes, todo)
      decreases todo
    {
      var id :| id in todo;
      var perm := ResolveUserPermission(byId, user, id);
      ResolvedAt(byId, user, id);
      if perm.None? {
        StuckBlocksAll(byId, user, id);
        return false, nodes;
      }
      AnnotateStep(perms, attached, nodes, todo, id, perm.value);
      nodes := nodes[id := nodes[id].(userPermission := perm.value)];
      todo := todo - {id};
    }
    AnnotatedAllResolve(byId, user, attached, nodes);
    ok := true;
  }

  lemma ResolvedAt(byId: map<string, Row>, user: string, id: string)
    requires Closed(byId) && id in byId
    ensures Resolved(byId, user)[id] == Resolve(byId, user, id)
  {
  }

  lemma StuckBlocksAll(byId: map<string, Row>, user: string, id: string)
    requires Closed(byId) && id in byId && Resolve(byId, user, id).None?
    ensures !AllResolve(byId, user)
  {
  }

  lemma AnnotatedAllResolve(byId: map<string, Row>, user: string, attached: map<string, Node>, nodes: map<string, Node>)
    requires Closed(byId) && AnnotatedBut(Resolved(byId, user), attached, nodes, {})
    ensures AllResolve(byId, user)
  {
    forall id | id in byId
      ensures Resolve(byId, user, id).Some?
    {
      ResolvedAt(byId, user, id);
    }
  }

  /** The two nodes differ at most in their permission. */
  predicate SameButPermission(a: Node, b: Node)
  {
    a.name == b.name && a.entityType == b.entityType && a.children == b.children && a.kept == b.kept
  }

  /** `_prune`, as one pass over the nodes: an empty children list is
      dropped. */
  method Prune(annotated: map<string, Node>) returns (nodes: map<string, Node>)
    requires forall id :: id in annotated ==> annotated[id].children.Some?
    ensures nodes.Keys == annotated.Keys
    ensures forall id :: id in nodes ==>
      nodes[id] == annotated[id].(children := Pruned(annotated[id].children.value))
  {
    nodes := annotated;
    var todo := annotated.Keys;
    while todo != {}
      invariant todo <= annotated.Keys && nodes.Keys == annotated.Keys
      invariant forall id :: id in nodes ==>
        nodes[id] == annotated[id].(children := if id !in todo then Pruned(annotated[id].children.value) else annotated[id].children)
      decreases todo
    {
      var id :| id in todo;
      if nodes[id].children.value == [] {
        nodes := nodes[id := nodes[id].(children := None)];
      }
      todo := todo - {id};
    }
  }

  /** `build_directory_tree`: node shells, attach, annotate, prune. Row ids
      are the table's primary key. `parent_of[id]` is the parent of
      `row_by_id[id]`, so the walks read both from `byId`. */
  method BuildDirectoryTree(rows: seq<Row>, user: string, rootName: string, keepKeys: seq<string>)
    returns (r: Result<Tree, BuildError>)
    requires JsArray.NoDup(Ids(rows))
    ensures r == BuildSpec(rows, user, rootName, keepKeys)
  {
    var shells := MakeShells(rows, keepKeys);
    var missing, rootChildren, attached := AttachChildren(rows, shells);
    if missing.Some? {
      return Err(MissingParent(missing.value));
    }
    ClosedWhenKnown(rows);
    var byId := ById(rows);
    var ok, annotated := Annotate(byId, user, attached);
    if !ok {
      return Err(NoTermination);
    }
    var nodes := Prune(annotated);
    assert Passes(rows, user, keepKeys, shells, attached, annotated, nodes);
    AssembleNodes(rows, user, keepKeys, shells, attached, annotated, nodes);
    r := Ok(Tree(rootName, Pruned(rootChildren), nodes));
  }

  /** The passes after the shells: attach all rows, annotate every node,
      prune every node. */
  ghost predicate Passes(rows: seq<Row>, user: string, keepKeys: seq<string>,
                         shells: map<string, Node>, attached: map<string, Node>,
                         annotated: map<string, Node>, nodes: map<string, Node>)
    requires Closed(ById(rows))
  {
    && shells.Keys == ById(rows).Keys
    && (forall id :: id in shells ==> shells[id] == Shell(ById(rows)[id], keepKeys))
    && AttachedUpTo(rows, |rows|, shells, attached)
    && AnnotatedBut(Resolved(ById(rows), user), attached, annotated, {})
    && nodes.Keys == annotated.Keys
    && (forall id :: id in nodes ==> nodes[id] == annotated[id].(children := Pruned(annotated[id].children.value)))
  }

  /** The four passes together build the node of every id. */
  lemma AssembleNodes(rows: seq<Row>, user: string, keepKeys: seq<string>,
                      shells: map<string, Node>, attached: map<string, Node>,
                      annotated: map<string, Node>, nodes: map<string, Node>)
    requires Closed(ById(rows)) && AllResolve(ById(rows), user)
    requires Passes(rows, user, keepKeys, shells, attached, annotated, nodes)
    ensures nodes == NodesOf(rows, user, keepKeys)
  {
    forall id | id in nodes
      ensures id in ById(rows) && nodes[id] == NodeOf(rows, user, keepKeys, id)
    {
      AssembleNode(rows, user, keepKeys, shells, attached, annotated, nodes, id);
    }
    NodesAreNodesOf(rows, user, keepKeys, nodes);
  }

  lemma NodesAreNodesOf(rows: seq<Row>, user: string, keepKeys: seq<string>, nodes: map<string, Node>)
    requires Closed(ById(rows)) && AllResolve(ById(rows), user) && nodes.Keys == ById(rows).Keys
    requires forall id :: id in nodes ==> nodes[id] == NodeOf(rows, user, keepKeys, id)
    ensures nodes == NodesOf(rows, user, keepKeys)
  {
  }

  lemma AssembleNode(rows: seq<Row>, user: string, keepKeys: seq<string>,
                     shells: map<string, Node>, attached: map<string, Node>,
                     annotated: map<string, Node>, nodes: map<string, Node>, id: string)
    requires Closed(ById(rows)) && AllResolve(ById(rows), user)
    requires Passes(rows, user, keepKeys, shells, attached, annotated, nodes)
    requires id in nodes
    ensures id in ById(rows) && nodes[id] == NodeOf(rows, user, keepKeys, id)
  {
    assert rows[..|rows|] == rows;
    ResolvedAt(ById(rows), user, id);
  }

  /** The `for k in keep_keys` loop of one shell. */
  method CopyKeptKeys(row: Row, keepKeys: seq<string>) returns (kept: map<string, string>)
    ensures kept == Kept(row, keepKeys)
  {
    kept := map[];
    for t := 0 to |keepKeys|
      invariant kept == Kept(row, keepKeys[..t])
    {
      var k := keepKeys[t];
      assert keepKeys[..t + 1] == keepKeys[..t] + [k];
      if k in row.fields {
        kept := kept[k := row.fields[k]];
      }
    }
    assert keepKeys[..|keepKeys|] == keepKeys;
  }

  // ---------- what the built tree says ---------------------------------------

  /** Row j's id is in the children list of the parent it names. */
  lemma ChildListed(rows: seq<Row>, j: nat)
    requires j < |rows|
    ensures rows[j].id in ChildrenOf(rows, rows[j].parentId)
  {
    AttachedOnce(rows, rows[j].parentId);
    ChildrenAtRows(rows, rows[j].parentId);
    var cr := ChildRows(rows, rows[j].parentId);
    var x :| 0 <= x < |cr| && cr[x] == j;
    assert ChildrenOf(rows, rows[j].parentId)[x] == rows[j].id;
  }

  /** With unique ids, the built tree holds every row as a node with the
      row's name, type and kept columns and the resolved permission; the node
      is listed under the root or under its parent, and it keeps a children
      list exactly when some row names it as parent. */
  lemma BuiltNode(rows: seq<Row>, user: string, rootName: string, keepKeys: seq<string>, j: nat)
    requires JsArray.NoDup(Ids(rows)) && j < |rows|
    requires BuildSpec(rows, user, rootName, keepKeys).Ok?
    ensures var t := BuildSpec(rows, user, rootName, keepKeys).value;
      && rows[j].id in t.nodes
      && t.nodes[rows[j].id].name == rows[j].name
      && t.nodes[rows[j].id].entityType == rows[j].entityType
      && t.nodes[rows[j].id].kept == Kept(rows[j], keepKeys)
      && (t.nodes[rows[j].id].children.Some? <==> exists i :: 0 <= i < |rows| && rows[i].parentId == Some(rows[j].id))
      && (rows[j].parentId.None? ==> t.rootChildren.Some? && rows[j].id in t.rootChildren.value)
      && (rows[j].parentId.Some? ==>
            rows[j].parentId.value in t.nodes && t.nodes[rows[j].parentId.value].children.Some?
            && rows[j].id in t.nodes[rows[j].parentId.value].children.value)
  {
    var t := BuildSpec(rows, user, rootName, keepKeys).value;
    ClosedWhenKnown(rows);
    FirstMissingMeaning(rows, ById(rows).Keys);
    ByIdFindsRow(rows, j);
    ChildrenOfEmpty(rows, Some(rows[j].id));
    ChildListed(rows, j);
    match rows[j].parentId {
      case None =>
      case Some(p) =>
        assert ParentKnown(rows[j], ById(rows).Keys);
        assert ChildrenOf(rows, Some(p)) != [];
    }
  }

  /** The build fails on the first row whose parent is no row. */
  lemma BuildMissingParent(rows: seq<Row>, user: string, rootName: string, keepKeys: seq<string>, p: string)
    requires BuildSpec(rows, user, rootName, keepKeys) == Err(MissingParent(p))
    ensures exists j :: (0 <= j < |rows| && rows[j].parentId == Some(p) && p !in ById(rows) &&
      forall i :: 0 <= i < j ==> ParentKnown(rows[i], ById(rows).Keys))
  {
    FirstMissingMeaning(rows, ById(rows).Keys);
  }

  /** The build gives up only on a node whose grant walk never ends. */
  lemma BuildNoTermination(rows: seq<Row>, user: string, rootName: string, keepKeys: seq<string>)
    requires BuildSpec(rows, user, rootName, keepKeys) == Err(NoTermination)
    ensures Closed(ById(rows))
    ensures exists id :: id in ById(rows) && forall f: nat :: Walk(ById(rows), GrantPass(user), id, f) == Stuck
  {
    assert FirstMissing(rows, ById(rows).Keys).None?;
    ClosedWhenKnown(rows);
    assert !AllResolve(ById(rows), user);
    var id :| id in ById(rows) && Resolve(ById(rows), user, id).None?;
    ResolveDiverges(ById(rows), user, id);
    assert forall f: nat :: Walk(ById(rows), GrantPass(user), id, f) == Stuck;
  }

  /** A built tree has every parent among the rows. */
  lemma BuildOkParentsKnown(rows: seq<Row>, user: string, rootName: string, keepKeys: seq<string>)
    requires BuildSpec(rows, user, rootName, keepKeys).Ok?
    ensures forall j :: 0 <= j < |rows| ==> ParentKnown(rows[j], ById(rows).Keys)
  {
    FirstMissingMeaning(rows, ById(rows).Keys);
  }
}
