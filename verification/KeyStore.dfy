/** The in-memory key store: pkg/keystore/keystore.go. */
module KeyStore {
  import opened Wrappers
  import opened GoStrings

  datatype PublicKey = PublicKey(modulus: nat, exponent: nat)

  /** An RSA private key holds its public part. */
  datatype PrivateKey = PrivateKey(publicPart: PublicKey, secret: nat)

  datatype Key = Key(private: PrivateKey, public: PublicKey)

  /** PEM decoding and PKCS1/PKCS8 parsing of a file's bytes to an RSA key. */
  type Decoder = string -> Option<PrivateKey>

  const MAX_PEM_SIZE := 1024 * 1024

  // ----- the directory tree

  datatype Content = Readable(bytes: string) | Unopenable | Unreadable

  /** What the walk meets; a symbolic link is a file, and a closed directory cannot be listed. */
  datatype Node = File(name: string, content: Content) | Dir(name: string, nodes: seq<Node>) | ClosedDir(name: string)

  /** `filepath.Ext` of a file name: from the last dot on. */
  function Ext(name: string): string {
    if name == "" then ""
    else if '.' in name[1..] then Ext(name[1..])
    else if name[0] == '.' then name
    else ""
  }

  function KeyId(name: string): string {
    Trim(TrimSuffix(name, ".pem"), IsSpace)
  }

  /** A hidden mount directory such as the ones Kubernetes puts beside the key links. */
  predicate IsInternal(dirName: string) {
    HasPrefix(dirName, "..")
  }

  function Limited(bytes: string): string {
    if |bytes| <= MAX_PEM_SIZE then bytes else bytes[..MAX_PEM_SIZE]
  }

  function DecodeFile(decode: Decoder, content: Content): Option<Key> {
    if !content.Readable? then None
    else
      match decode(Limited(content.bytes))
      case None => None
      case Some(k) => Some(Key(k, k.publicPart))
  }

  // ----- the walk as a list of events

  /** In walk order: a key is loaded under an id, or the walk stops with an error. */
  datatype Event = Load(id: string, key: Key) | Stop

  function Events(decode: Decoder, node: Node): seq<Event>
    decreases node, 1
  {
    match node
    case File(name, content) =>
      if Ext(name) != ".pem" then []
      else
        (match DecodeFile(decode, content)
         case None => [Stop]
         case Some(key) => [Load(KeyId(name), key)])
    case Dir(name, nodes) => if IsInternal(name) then [] else EventsAll(decode, nodes)
    case ClosedDir(name) => if IsInternal(name) then [] else [Stop]
  }

  function EventsAll(decode: Decoder, nodes: seq<Node>): seq<Event>
    decreases nodes, 0
  {
    if |nodes| == 0 then [] else Events(decode, nodes[0]) + EventsAll(decode, nodes[1..])
  }

  /** Loads take effect until the first stop. */
  function Apply(store: map<string, Key>, es: seq<Event>): (map<string, Key>, bool)
    decreases |es|
  {
    if |es| == 0 then (store, true)
    else if es[0].Stop? then (store, false)
    else Apply(store[es[0].id := es[0].key], es[1..])
  }

  lemma {:induction false} ApplyConcat(store: map<string, Key>, a: seq<Event>, b: seq<Event>)
    ensures Apply(store, a + b) == if Apply(store, a).1 then Apply(Apply(store, a).0, b) else Apply(store, a)
    decreases |a|
  {
    if |a| == 0 {
      assert a + b == b;
    } else if !a[0].Stop? {
      assert (a + b)[1..] == a[1..] + b;
      ApplyConcat(store[a[0].id := a[0].key], a[1..], b);
    }
  }

  // ----- the code

  class KeyStore {
    var store: map<string, Key>
    var activeKey: string

    constructor ()
      ensures store == map[] && activeKey == ""
    {
      store, activeKey := map[], "";
    }

    /** The root is absent when it cannot be examined at all. */
    method LoadFromFileSystem(decode: Decoder, root: Option<Node>) returns (n: nat, ok: bool)
      modifies this`store
      ensures root.None? ==> !ok && store == old(store)
      ensures root.Some? ==> (store, ok) == Apply(old(store), Events(decode, root.value))
      ensures n == if ok then |store.Keys| else 0
    {
      if root.None? {
        return 0, false;
      }
      ok := Walk(decode, root.value);
      n := if ok then |store.Keys| else 0;
    }

    /** `fs.WalkDir` with the walker of the loader. */
    method Walk(decode: Decoder, node: Node) returns (ok: bool)
      modifies this`store
      ensures (store, ok) == Apply(old(store), Events(decode, node))
      decreases node, 1
    {
      match node
      case Dir(name, nodes) =>
        if HasPrefix(name, "..") {
          return true;
        }
        ok := WalkAll(decode, nodes);
      case ClosedDir(name) =>
        ok := HasPrefix(name, "..");
      case File(name, content) =>
        if Ext(name) != ".pem" {
          return true;
        }
        var key := DecodeFile(decode, content);
        if key.None? {
          return false;
        }
        var id := Trim(TrimSuffix(name, ".pem"), IsSpace);
        store := store[id := key.value];
        ok := true;
    }

    method WalkAll(decode: Decoder, nodes: seq<Node>) returns (ok: bool)
      modifies this`store
      ensures (store, ok) == Apply(old(store), EventsAll(decode, nodes))
      decreases nodes, 0
    {
      ok := true;
      if |nodes| > 0 {
        ApplyConcat(store, Events(decode, nodes[0]), EventsAll(decode, nodes[1..]));
        ok := Walk(decode, nodes[0]);
        if ok {
          ok := WalkAll(decode, nodes[1..]);
        }
      }
    }

    method PrivateKey(kid: string) returns (r: Option<PrivateKey>)
      ensures r.Some? <==> kid in store
      ensures r.Some? ==> r.value == store[kid].private
    {
      r := if kid in store then Some(store[kid].private) else None;
    }

    method PublicKey(kid: string) returns (r: Option<PublicKey>)
      ensures r.Some? <==> kid in store
      ensures r.Some? ==> r.value == store[kid].public
    {
      r := if kid in store then Some(store[kid].public) else None;
    }

    method SetActiveKey(key: string) returns (ok: bool)
      modifies this`activeKey
      ensures ok <==> key in store
      ensures activeKey == if ok then key else old(activeKey)
    {
      var found := key in store;
      if !found {
        return false;
      }
      activeKey := key;
      ok := true;
    }

    method GetActiveKid() returns (kid: string)
      ensures kid == activeKey
    {
      kid := activeKey;
    }
  }

  // ----- what a load does to the store

  /** The loads before the first stop, in walk order. */
  function Loads(es: seq<Event>): seq<Event>
    decreases |es|
  {
    if |es| == 0 || es[0].Stop? then [] else [es[0]] + Loads(es[1..])
  }

  ghost predicate AllLoads(es: seq<Event>) {
    forall i :: 0 <= i < |es| ==> es[i].Load?
  }

  /** Event i is the last one for its id. */
  ghost predicate LastFor(es: seq<Event>, i: nat)
    requires i < |es| && AllLoads(es)
  {
    forall j :: i < j < |es| ==> es[j].id != es[i].id
  }

  /** `after` is `before` overridden by the loads, the last load of an id winning. */
  ghost predicate Overridden(before: map<string, Key>, loads: seq<Event>, after: map<string, Key>)
    requires AllLoads(loads)
  {
    && (forall id :: id in after <==> id in before || Mentions(loads, id))
    && (forall i :: 0 <= i < |loads| && LastFor(loads, i) ==>
          loads[i].id in after && after[loads[i].id] == loads[i].key)
    && (forall id :: id in before && !Mentions(loads, id) ==> id in after && after[id] == before[id])
  }

  lemma {:induction false} LoadsAreLoads(es: seq<Event>)
    ensures AllLoads(Loads(es))
    decreases |es|
  {
    if |es| > 0 && !es[0].Stop? {
      LoadsAreLoads(es[1..]);
    }
  }

  /** A load succeeds exactly when no event stops it; either way the store is overridden by the loads made
      before the first error, and by nothing else. */
  lemma {:induction false} LoadOverrides(store: map<string, Key>, es: seq<Event>)
    ensures AllLoads(Loads(es)) && Overridden(store, Loads(es), Apply(store, es).0)
    ensures Apply(store, es).1 <==> Stop !in es
    ensures Apply(store, es).1 ==> Loads(es) == es
    decreases |es|
  {
    LoadsAreLoads(es);
    if |es| > 0 && !es[0].Stop? {
      var e := es[0];
      LoadOverrides(store[e.id := e.key], es[1..]);
      assert es == [e] + es[1..];
      OverriddenCons(store, e, Loads(es[1..]), Apply(store, es).0);
    }
  }

  /** Some load is for this id. */
  ghost predicate Mentions(loads: seq<Event>, id: string)
    requires AllLoads(loads)
  {
    exists i :: 0 <= i < |loads| && loads[i].id == id
  }

  lemma MentionsCons(e: Event, loads: seq<Event>, id: string)
    requires e.Load? && AllLoads(loads)
    ensures AllLoads([e] + loads)
    ensures Mentions([e] + loads, id) <==> e.id == id || Mentions(loads, id)
  {
    var all := [e] + loads;
    if i :| 0 <= i < |loads| && loads[i].id == id {
      assert all[i + 1].id == id;
    }
    if e.id == id {
      assert all[0].id == id;
    }
  }

  lemma LastForCons(e: Event, loads: seq<Event>, i: nat)
    requires e.Load? && AllLoads(loads) && AllLoads([e] + loads) && i < |loads| + 1 && LastFor([e] + loads, i)
    ensures if i == 0 then !Mentions(loads, e.id) else LastFor(loads, i - 1) && ([e] + loads)[i] == loads[i - 1]
  {
    var all := [e] + loads;
    assert forall j :: 0 <= j < |loads| ==> loads[j] == all[j + 1];
  }

  lemma OverriddenCons(store: map<string, Key>, e: Event, loads: seq<Event>, after: map<string, Key>)
    requires e.Load? && AllLoads(loads) && Overridden(store[e.id := e.key], loads, after)
    ensures AllLoads([e] + loads) && Overridden(store, [e] + loads, after)
  {
    var all := [e] + loads;
    MentionsCons(e, loads, e.id);
    forall id
      ensures id in after <==> id in store || Mentions(all, id)
      ensures id in store && !Mentions(all, id) ==> after[id] == store[id]
    {
      MentionsCons(e, loads, id);
    }
    forall i | 0 <= i < |all| && LastFor(all, i)
      ensures after[all[i].id] == all[i].key
    {
      LastForCons(e, loads, i);
    }
  }

  /** Every stored public key is the public part of the private key beside it. */
  ghost predicate Paired(store: map<string, Key>) {
    forall id :: id in store ==> store[id].public == store[id].private.publicPart
  }

  ghost predicate PairedEvents(es: seq<Event>) {
    forall e :: e in es && e.Load? ==> e.key.public == e.key.private.publicPart
  }

  lemma {:induction false} EventsPaired(decode: Decoder, node: Node)
    ensures PairedEvents(Events(decode, node))
    decreases node, 1
  {
    if node.Dir? {
      EventsAllPaired(decode, node.nodes);
    }
  }

  lemma {:induction false} EventsAllPaired(decode: Decoder, nodes: seq<Node>)
    ensures PairedEvents(EventsAll(decode, nodes))
    decreases nodes, 0
  {
    if |nodes| > 0 {
      EventsPaired(decode, nodes[0]);
      EventsAllPaired(decode, nodes[1..]);
    }
  }

  lemma {:induction false} ApplyPaired(store: map<string, Key>, es: seq<Event>)
    requires Paired(store) && PairedEvents(es)
    ensures Paired(Apply(store, es).0)
    decreases |es|
  {
    if |es| > 0 && !es[0].Stop? {
      assert es[0] in es;
      ApplyPaired(store[es[0].id := es[0].key], es[1..]);
    }
  }

  /** Loading any tree keeps every public key paired with its private key. */
  lemma LoadKeepsPairs(decode: Decoder, store: map<string, Key>, node: Node)
    requires Paired(store)
    ensures Paired(Apply(store, Events(decode, node)).0)
  {
    EventsPaired(decode, node);
    ApplyPaired(store, Events(decode, node));
  }

  // ----- internal directories

  /** The tree with every internal directory closed. */
  function Sealed(node: Node): Node
    decreases node, 1
  {
    match node
    case File(_, _) => node
    case Dir(name, nodes) => if IsInternal(name) then ClosedDir(name) else Dir(name, SealedAll(nodes))
    case ClosedDir(_) => node
  }

  function SealedAll(nodes: seq<Node>): seq<Node>
    decreases nodes, 0
  {
    if |nodes| == 0 then [] else [Sealed(nodes[0])] + SealedAll(nodes[1..])
  }

  /** Nothing beneath an internal directory is used, not even whether it could be read. */
  lemma {:induction false} InternalUnused(decode: Decoder, node: Node)
    ensures Events(decode, Sealed(node)) == Events(decode, node)
    decreases node, 1
  {
    if node.Dir? {
      InternalAllUnused(decode, node.nodes);
    }
  }

  lemma {:induction false} InternalAllUnused(decode: Decoder, nodes: seq<Node>)
    ensures EventsAll(decode, SealedAll(nodes)) == EventsAll(decode, nodes)
    decreases nodes, 0
  {
    if |nodes| > 0 {
      InternalUnused(decode, nodes[0]);
      InternalAllUnused(decode, nodes[1..]);
      assert SealedAll(nodes)[1..] == SealedAll(nodes[1..]);
    }
  }

  /** The extension test keeps exactly the names that end in ".pem". */
  lemma {:induction false} PemNames(name: string)
    ensures Ext(name) == ".pem" <==> HasSuffix(name, ".pem")
  {
    if name != "" {
      if '.' in name[1..] {
        PemNames(name[1..]);
      } else if |name| > 4 {
        assert '.' != name[1..][|name| - 5];
      }
    }
  }

  // ----- which files a walk comes to

  /** The path of child numbers leads from the node to the target through no internal directory. */
  ghost predicate Reaches(node: Node, path: seq<nat>, target: Node)
    decreases |path|
  {
    if path == [] then node == target
    else
      && node.Dir? && !(".." <= node.name) && path[0] < |node.nodes|
      && Reaches(node.nodes[path[0]], path[1..], target)
  }

  /** What meeting one node by itself does. */
  function Meeting(decode: Decoder, target: Node): Option<Event> {
    match target
    case File(name, content) =>
      if !HasSuffix(name, ".pem") then None
      else if DecodeFile(decode, content).None? then Some(Stop)
      else Some(Load(KeyId(name), DecodeFile(decode, content).value))
    case Dir(_, _) => None
    case ClosedDir(name) => if IsInternal(name) then None else Some(Stop)
  }

  ghost predicate Met(decode: Decoder, node: Node, e: Event) {
    exists path, target :: Reaches(node, path, target) && Meeting(decode, target) == Some(e)
  }

  lemma {:induction false} MetFromEvent(decode: Decoder, node: Node, e: Event)
    requires e in Events(decode, node)
    ensures Met(decode, node, e)
    decreases node, 1
  {
    if node.Dir? {
      var i := MetFromAll(decode, node.nodes, e);
      var path, target :| Reaches(node.nodes[i], path, target) && Meeting(decode, target) == Some(e);
      assert ([i] + path)[1..] == path;
      assert Reaches(node, [i] + path, target);
    } else {
      if node.File? {
        PemNames(node.name);
      }
      assert Reaches(node, [], node);
    }
  }

  lemma {:induction false} MetFromAll(decode: Decoder, nodes: seq<Node>, e: Event) returns (i: nat)
    requires e in EventsAll(decode, nodes)
    ensures i < |nodes| && Met(decode, nodes[i], e)
    decreases nodes, 0
  {
    var tail := nodes[1..];
    assert EventsAll(decode, nodes) == Events(decode, nodes[0]) + EventsAll(decode, tail);
    if e in Events(decode, nodes[0]) {
      MetFromEvent(decode, nodes[0], e);
      i := 0;
    } else {
      var k := MetFromAll(decode, tail, e);
      assert tail[k] == nodes[k + 1];
      i := k + 1;
    }
  }

  lemma {:induction false} EventInAll(decode: Decoder, nodes: seq<Node>, i: nat, e: Event)
    requires i < |nodes| && e in Events(decode, nodes[i])
    ensures e in EventsAll(decode, nodes)
  {
    var tail := nodes[1..];
    if i > 0 {
      assert tail[i - 1] == nodes[i];
      EventInAll(decode, tail, i - 1, e);
    }
    assert EventsAll(decode, nodes) == Events(decode, nodes[0]) + EventsAll(decode, tail);
  }

  lemma {:induction false} EventFromMet(decode: Decoder, node: Node, path: seq<nat>, target: Node, e: Event)
    requires Reaches(node, path, target) && Meeting(decode, target) == Some(e)
    ensures e in Events(decode, node)
    decreases |path|
  {
    if path == [] {
      if node.File? {
        PemNames(node.name);
      }
    } else {
      EventFromMet(decode, node.nodes[path[0]], path[1..], target, e);
      EventInAll(decode, node.nodes, path[0], e);
    }
  }

  /** The walk's events are exactly those of the nodes that some path leads to: it misses no file. */
  lemma EventsMet(decode: Decoder, node: Node, e: Event)
    ensures e in Events(decode, node) <==> Met(decode, node, e)
  {
    if e in Events(decode, node) {
      MetFromEvent(decode, node, e);
    }
    if Met(decode, node, e) {
      var path, target :| Reaches(node, path, target) && Meeting(decode, target) == Some(e);
      EventFromMet(decode, node, path, target, e);
    }
  }

  /** A reachable `.pem` file with this key id. */
  ghost predicate HasPem(node: Node, id: string) {
    exists path, target :: Reaches(node, path, target) && target.File? && HasSuffix(target.name, ".pem") && KeyId(target.name) == id
  }

  /** A reachable node that stops the walk: an undecodable `.pem` file or a closed directory. */
  ghost predicate Blocked(decode: Decoder, node: Node) {
    exists path, target :: Reaches(node, path, target) && Meeting(decode, target) == Some(Stop)
  }

  /** A load succeeds exactly when no reachable node stops it; then every reachable `.pem` file is loaded
      under its id, no other id is added, and every key in the store is an old one or that of such a file. */
  lemma LoadFindsAll(decode: Decoder, store: map<string, Key>, node: Node)
    ensures var (after, ok) := Apply(store, Events(decode, node));
            && (ok <==> !Blocked(decode, node))
            && (ok ==> forall id :: id in after <==> id in store || HasPem(node, id))
            && (ok ==> forall id :: id in after ==>
                  (id in store && after[id] == store[id]) || Met(decode, node, Load(id, after[id])))
  {
    var es := Events(decode, node);
    var (after, ok) := Apply(store, es);
    EventsMet(decode, node, Stop);
    LoadOverrides(store, es);
    if ok {
      forall id
        ensures Mentions(es, id) <==> HasPem(node, id)
      {
        MentionedFile(decode, node, id);
      }
      forall id | id in after && Mentions(es, id)
        ensures Met(decode, node, Load(id, after[id]))
      {
        var i := LastMention(es, id);
        EventsMet(decode, node, es[i]);
      }
    }
  }

  lemma MentionedFile(decode: Decoder, node: Node, id: string)
    requires AllLoads(Events(decode, node))
    ensures Mentions(Events(decode, node), id) <==> HasPem(node, id)
  {
    var es := Events(decode, node);
    if i :| 0 <= i < |es| && es[i].id == id {
      EventsMet(decode, node, es[i]);
      var path, target :| Reaches(node, path, target) && Meeting(decode, target) == Some(es[i]);
    }
    if path, target :| Reaches(node, path, target) && target.File? && HasSuffix(target.name, ".pem") && KeyId(target.name) == id {
      var e := Meeting(decode, target).value;
      EventFromMet(decode, node, path, target, e);
      assert exists i :: 0 <= i < |es| && es[i] == e;
    }
  }

  lemma {:induction false} LastMention(es: seq<Event>, id: string) returns (i: nat)
    requires AllLoads(es) && Mentions(es, id)
    ensures i < |es| && es[i].id == id && LastFor(es, i)
    decreases |es|
  {
    var last := |es| - 1;
    if es[last].id == id {
      i := last;
    } else {
      assert forall j :: 0 <= j < |es[..last]| ==> es[..last][j] == es[j];
      var k :| 0 <= k < |es| && es[k].id == id;
      assert es[..last][k].id == id;
      i := LastMention(es[..last], id);
      assert forall j :: i < j < last ==> es[j] == es[..last][j];
    }
  }

  // ----- which file a key comes from

  /** A file name that gives a key this id: white space may surround the id, which has none at its ends. */
  ghost predicate NamesKey(name: string, id: string) {
    Tight(id, IsSpace) && exists l, r :: All(l, IsSpace) && All(r, IsSpace) && name == l + id + r + ".pem"
  }

  lemma SuffixCut(s: string)
    ensures HasSuffix(s + ".pem", ".pem") && TrimSuffix(s + ".pem", ".pem") == s
  {
    var name := s + ".pem";
    assert name[|name| - 4..] == ".pem" && name[..|name| - 4] == s;
  }

  lemma KeyNamed(name: string, id: string)
    ensures NamesKey(name, id) <==> HasSuffix(name, ".pem") && KeyId(name) == id
  {
    if NamesKey(name, id) {
      var l, r :| All(l, IsSpace) && All(r, IsSpace) && name == l + id + r + ".pem";
      SuffixCut(l + id + r);
      TrimPadded(l, id, r, IsSpace);
    }
    if HasSuffix(name, ".pem") && KeyId(name) == id {
      var s := TrimSuffix(name, ".pem");
      assert name == s + ".pem";
      var l, r := TrimShape(s, IsSpace);
    }
  }

  /** The walk comes to the end of path `p` before it comes to the end of path `q`. */
  ghost predicate Before(p: seq<nat>, q: seq<nat>)
    decreases |p|
  {
    p != [] && q != [] && (p[0] < q[0] || (p[0] == q[0] && Before(p[1..], q[1..])))
  }

  /** The event is that of a node on a later path. */
  ghost predicate MetLater(decode: Decoder, node: Node, path: seq<nat>, e: Event) {
    exists q, target :: Before(path, q) && Reaches(node, q, target) && Meeting(decode, target) == Some(e)
  }

  lemma {:induction false} EventsAllSplit(decode: Decoder, nodes: seq<Node>, k: nat)
    requires k < |nodes|
    ensures EventsAll(decode, nodes) ==
            EventsAll(decode, nodes[..k]) + Events(decode, nodes[k]) + EventsAll(decode, nodes[k + 1..])
  {
    if k > 0 {
      var tail := nodes[1..];
      EventsAllSplit(decode, tail, k - 1);
      assert tail[..k - 1] == nodes[..k][1..] && tail[k..] == nodes[k + 1..];
    }
  }

  /** Around the event of the node on a path, the later ones are those of nodes on later paths. */
  lemma {:induction false} EventPlace(decode: Decoder, node: Node, path: seq<nat>, target: Node, e: Event)
    returns (before: seq<Event>, later: seq<Event>)
    requires Reaches(node, path, target) && Meeting(decode, target) == Some(e)
    ensures Events(decode, node) == before + [e] + later
    ensures forall x :: x in later ==> MetLater(decode, node, path, x)
    decreases |path|
  {
    if path == [] {
      if node.File? {
        PemNames(node.name);
      }
      before, later := [], [];
    } else {
      var k := path[0];
      var child, rest := node.nodes[k], node.nodes[k + 1..];
      var b, l := EventPlace(decode, child, path[1..], target, e);
      EventsAllSplit(decode, node.nodes, k);
      before, later := EventsAll(decode, node.nodes[..k]) + b, l + EventsAll(decode, rest);
      Regroup(EventsAll(decode, node.nodes[..k]), b, [e], l, EventsAll(decode, rest));
      forall x | x in l
        ensures MetLater(decode, node, path, x)
      {
        LaterBelow(decode, node, path, x);
      }
      forall x | x in EventsAll(decode, rest)
        ensures MetLater(decode, node, path, x)
      {
        LaterBeside(decode, node, path, x);
      }
    }
  }

  lemma Regroup(a: seq<Event>, b: seq<Event>, c: seq<Event>, d: seq<Event>, e: seq<Event>)
    ensures a + (b + c + d) + e == (a + b) + c + (d + e)
  {
  }

  lemma LaterBelow(decode: Decoder, node: Node, path: seq<nat>, x: Event)
    requires path != [] && node.Dir? && !(".." <= node.name) && path[0] < |node.nodes|
    requires MetLater(decode, node.nodes[path[0]], path[1..], x)
    ensures MetLater(decode, node, path, x)
  {
    var q, target :|
      Before(path[1..], q) && Reaches(node.nodes[path[0]], q, target) && Meeting(decode, target) == Some(x);
    var longer := [path[0]] + q;
    assert longer[1..] == q;
    assert Before(path, longer) && Reaches(node, longer, target);
  }

  lemma LaterBeside(decode: Decoder, node: Node, path: seq<nat>, x: Event)
    requires path != [] && node.Dir? && !(".." <= node.name) && path[0] < |node.nodes|
    requires x in EventsAll(decode, node.nodes[path[0] + 1..])
    ensures MetLater(decode, node, path, x)
  {
    var i := MetFromAll(decode, node.nodes[path[0] + 1..], x);
    var child := node.nodes[path[0] + 1 + i];
    assert Met(decode, child, x);
    var q, target :| Reaches(child, q, target) && Meeting(decode, target) == Some(x);
    var beside := [path[0] + 1 + i] + q;
    assert beside[1..] == q;
    assert Before(path, beside) && Reaches(node, beside, target);
  }

  /** No later file of the walk gives a key this id. */
  ghost predicate LastNaming(node: Node, path: seq<nat>, id: string) {
    forall q, target :: Before(path, q) && Reaches(node, q, target) && target.File? ==> !NamesKey(target.name, id)
  }

  /** What a file's bytes, at most 1048576 of them, decode to. */
  function KeyOf(decode: Decoder, bytes: string): Option<PrivateKey> {
    decode(if |bytes| <= 1048576 then bytes else bytes[..1048576])
  }

  /** A directory that can be listed or is internal, a `.pem` file with a key in it, or any other file. */
  ghost predicate Loadable(decode: Decoder, target: Node) {
    && (target.ClosedDir? ==> ".." <= target.name)
    && (target.File? && HasSuffix(target.name, ".pem") ==>
          target.content.Readable? && KeyOf(decode, target.content.bytes).Some?)
  }

  lemma StopsExactly(decode: Decoder, target: Node)
    ensures Meeting(decode, target) == Some(Stop) <==> !Loadable(decode, target)
  {
  }

  ghost predicate AllLoadable(decode: Decoder, node: Node) {
    forall path, target :: Reaches(node, path, target) ==> Loadable(decode, target)
  }

  /** A load succeeds exactly when everything that the walk comes to is loadable. */
  lemma LoadSucceeds(decode: Decoder, store: map<string, Key>, node: Node)
    ensures Apply(store, Events(decode, node)).1 <==> AllLoadable(decode, node)
  {
    LoadFindsAll(decode, store, node);
    if path, target :| Reaches(node, path, target) && !Loadable(decode, target) {
      StopsExactly(decode, target);
      assert Blocked(decode, node);
    }
    if Blocked(decode, node) {
      var path, target :| Reaches(node, path, target) && Meeting(decode, target) == Some(Stop);
      StopsExactly(decode, target);
      assert Reaches(node, path, target) && !Loadable(decode, target);
    }
  }

  /** After a successful load, a reachable file named by an id, white space around it and ".pem" is stored under
      that id: if it is the last such file, with the private key that its bytes decode to and the public part
      of that. */
  lemma LoadStores(decode: Decoder, store: map<string, Key>, node: Node, path: seq<nat>, name: string, bytes: string, id: string)
    requires Apply(store, Events(decode, node)).1
    requires Reaches(node, path, File(name, Readable(bytes))) && NamesKey(name, id)
    ensures id in Apply(store, Events(decode, node)).0 && KeyOf(decode, bytes).Some?
    ensures LastNaming(node, path, id) ==>
              var key := KeyOf(decode, bytes).value;
              Apply(store, Events(decode, node)).0[id] == Key(key, key.publicPart)
  {
    var file := File(name, Readable(bytes));
    LoadSucceeds(decode, store, node);
    KeyNamed(name, id);
    assert Reaches(node, path, file);
    assert Loadable(decode, file) && HasSuffix(file.name, ".pem");
    var e := Load(id, Key(KeyOf(decode, bytes).value, KeyOf(decode, bytes).value.publicPart));
    assert Meeting(decode, file) == Some(e);
    var before, later := EventPlace(decode, node, path, file, e);
    if LastNaming(node, path, id) {
      forall x | x in later && x.Load?
        ensures x.id != id
      {
        LaterOther(decode, node, path, x, id);
      }
    }
    LastLoadWins(store, before, e, later);
  }

  lemma LastLoadWins(store: map<string, Key>, before: seq<Event>, e: Event, later: seq<Event>)
    requires e.Load? && Apply(store, before + [e] + later).1
    ensures e.id in Apply(store, before + [e] + later).0
    ensures (forall x :: x in later && x.Load? ==> x.id != e.id) ==>
              Apply(store, before + [e] + later).0[e.id] == e.key
  {
    var es := before + [e] + later;
    LoadOverrides(store, es);
    assert es[|before|] == e;
    if forall x :: x in later && x.Load? ==> x.id != e.id {
      forall j | |before| < j < |es|
        ensures es[j].id != es[|before|].id
      {
        assert es[j] == later[j - |before| - 1];
      }
      assert LastFor(es, |before|);
    }
  }

  lemma LaterOther(decode: Decoder, node: Node, path: seq<nat>, x: Event, id: string)
    requires MetLater(decode, node, path, x) && LastNaming(node, path, id) && x.Load?
    ensures x.id != id
  {
    var q, target :| Before(path, q) && Reaches(node, q, target) && Meeting(decode, target) == Some(x);
    KeyNamed(target.name, id);
  }

  /** After a successful load, an id that was not there before is that of some reachable file. */
  lemma LoadAddsOnly(decode: Decoder, store: map<string, Key>, node: Node, id: string)
    requires Apply(store, Events(decode, node)).1 && id in Apply(store, Events(decode, node)).0 && id !in store
    ensures exists path, target :: Reaches(node, path, target) && target.File? && NamesKey(target.name, id)
  {
    LoadFindsAll(decode, store, node);
    var path, target :|
      Reaches(node, path, target) && target.File? && HasSuffix(target.name, ".pem") && KeyId(target.name) == id;
    KeyNamed(target.name, id);
  }
}
