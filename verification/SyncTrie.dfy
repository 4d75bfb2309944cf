/** What a hub answers about its sync trie: node metadata, listings, messages and submissions. */
module SyncTrie {
  import opened ByteStrings
  import opened Decimal
  import opened Sequences
  import opened Wrappers

  const TIMESTAMP_LENGTH := 10
  const MAX_VALUES_RETURNED := 1024
  const MESSAGE_ROOT_PREFIX: Byte := 1

  type SyncId = Bytes

  /** Ten timestamp digits, then a root prefix byte, then the rest of the key. */
  ghost predicate IsSyncId(id: SyncId) {
    |id| > TIMESTAMP_LENGTH && IsDigits(id[..TIMESTAMP_LENGTH])
  }

  ghost function Timestamp(id: SyncId): int
    requires IsSyncId(id)
  {
    Value(id[..TIMESTAMP_LENGTH])
  }

  predicate IsMessage(id: SyncId) {
    |id| > TIMESTAMP_LENGTH && id[TIMESTAMP_LENGTH] == MESSAGE_ROOT_PREFIX
  }

  ghost predicate Extends(a: SyncId, b: SyncId) {
    a <= b
  }

  /** The trie's key sets: well formed, and no key a prefix of another. */
  ghost predicate ValidIds(ids: set<SyncId>) {
    && (forall id :: id in ids ==> IsSyncId(id))
    && (forall a, b {:trigger Extends(a, b)} :: a in ids && b in ids && Extends(a, b) ==> a == b)
  }

  /** The subtree under a prefix. */
  function Under(ids: set<SyncId>, prefix: Bytes): (s: set<SyncId>) {
    set id | id in ids && prefix <= id
  }

  /**
   * Nodes branch byte by byte through the timestamp; below it a subtree of one key is a leaf
   * that holds the whole key.
   */
  predicate IsLeaf(ids: set<SyncId>, prefix: Bytes) {
    |prefix| >= TIMESTAMP_LENGTH && |Under(ids, prefix)| <= 1
  }

  /** The root is stored even when the trie is empty. */
  predicate IsNode(ids: set<SyncId>, prefix: Bytes) {
    prefix == [] || (Under(ids, prefix) != {} && !IsLeaf(ids, prefix[..|prefix| - 1]))
  }

  datatype TrieNode = TrieNode(prefix: Bytes, numMessages: nat, children: seq<TrieNode>)

  const EMPTY_NODE := TrieNode([], 0, [])

  ghost predicate IsChild(ids: set<SyncId>, prefix: Bytes, c: TrieNode) {
    && |c.prefix| == |prefix| + 1 && prefix <= c.prefix
    && IsNode(ids, c.prefix) && c.numMessages == |Under(ids, c.prefix)|
  }

  ghost predicate AreSiblings(ids: set<SyncId>, prefix: Bytes, cs: seq<TrieNode>) {
    && (forall i :: 0 <= i < |cs| ==> IsChild(ids, prefix, cs[i]))
    && (forall i, j :: 0 <= i < j < |cs| ==> cs[i].prefix != cs[j].prefix)
  }

  /** The children of a node, in whatever order the native hash map yields them. */
  ghost predicate AreChildren(ids: set<SyncId>, prefix: Bytes, cs: seq<TrieNode>) {
    && AreSiblings(ids, prefix, cs)
    && (!IsLeaf(ids, prefix) ==> forall id :: id in Under(ids, prefix) && |id| > |prefix| ==>
          exists i :: 0 <= i < |cs| && cs[i].prefix <= id)
  }

  /**
   * A hub seen through a metadata retriever. `rpc` tells the remote retriever, which answers a
   * missing node with an empty record, from the in-process one, which answers it with an error.
   * A hub that is not `reliable` may fail any call.
   */
  datatype Hub = Hub(ids: set<SyncId>, rpc: bool, reliable: bool)

  lemma ChildOf(ids: set<SyncId>, prefix: Bytes, id: SyncId)
    requires id in Under(ids, prefix) && |id| > |prefix| && !IsLeaf(ids, prefix)
    ensures var c := id[..|prefix| + 1]; prefix <= c && |c| == |prefix| + 1 && IsNode(ids, c) && c <= id
  {
    var c := id[..|prefix| + 1];
    assert c[..|prefix|] == prefix;
    assert id in Under(ids, c);
  }

  /** Whether a call fails, as the environment decides. */
  method Fails(hub: Hub) returns (fails: bool)
    ensures hub.reliable ==> !fails
  {
    fails := *;
    fails := fails && !hub.reliable;
  }

  method GetMetadata(hub: Hub, prefix: Bytes) returns (r: Result<TrieNode>)
    ensures IsNode(hub.ids, prefix) && r.Ok? ==>
      r.value.prefix == prefix && r.value.numMessages == |Under(hub.ids, prefix)| &&
      AreChildren(hub.ids, prefix, r.value.children)
    ensures IsNode(hub.ids, prefix) && r.Ok? && |prefix| >= 10 && |Under(hub.ids, prefix)| <= 1 ==> r.value.children == []
    ensures !IsNode(hub.ids, prefix) && r.Ok? ==> hub.rpc && r.value == EMPTY_NODE
    ensures hub.reliable ==> (r.Ok? <==> IsNode(hub.ids, prefix) || hub.rpc)
  {
    var fails := Fails(hub);
    if fails {
      return Err;
    }
    if !IsNode(hub.ids, prefix) {
      return if hub.rpc then Ok(EMPTY_NODE) else Err;
    }
    var children: seq<TrieNode> := [];
    if !IsLeaf(hub.ids, prefix) {
      children := GetChildren(hub.ids, prefix);
    }
    r := Ok(TrieNode(prefix, |Under(hub.ids, prefix)|, children));
  }

  method GetChildren(ids: set<SyncId>, prefix: Bytes) returns (children: seq<TrieNode>)
    requires !IsLeaf(ids, prefix)
    ensures AreChildren(ids, prefix, children)
  {
    var bytes := set id | id in Under(ids, prefix) && |id| > |prefix| :: id[..|prefix| + 1];
    var order := InSomeOrder(bytes);
    children := [];
    for i := 0 to |order|
      invariant |children| == i
      invariant forall k :: 0 <= k < i ==> children[k].prefix == order[k] && IsChild(ids, prefix, children[k])
    {
      assert order[i] in multiset(order);
      var id :| id in Under(ids, prefix) && |id| > |prefix| && id[..|prefix| + 1] == order[i];
      ChildOf(ids, prefix, id);
      children := children + [TrieNode(order[i], |Under(ids, order[i])|, [])];
    }
    forall id | id in Under(ids, prefix) && |id| > |prefix|
      ensures exists i :: 0 <= i < |children| && children[i].prefix <= id
    {
      assert id[..|prefix| + 1] in multiset(order);
      var i :| 0 <= i < |order| && order[i] == id[..|prefix| + 1];
      assert children[i].prefix <= id;
    }
  }

  /** The native listing stops once it has more than 1024 keys, so only subtrees up to that size are sure to be listed whole. */
  method GetAllSyncIdsByPrefix(hub: Hub, prefix: Bytes) returns (r: Result<seq<SyncId>>)
    ensures r.Ok? ==> multiset(r.value) <= multiset(Under(hub.ids, prefix))
    ensures r.Ok? && |r.value| <= 1024 ==> multiset(r.value) == multiset(Under(hub.ids, prefix))
    ensures r.Ok? && |Under(hub.ids, prefix)| <= 1024 ==>
      multiset(r.value) == multiset(Under(hub.ids, prefix))
    ensures hub.reliable ==> r.Ok?
  {
    var fails := Fails(hub);
    if fails {
      return Err;
    }
    var all := InSomeOrder(Under(hub.ids, prefix));
    assert |multiset(all)| == |multiset(Under(hub.ids, prefix))|;
    if |all| > MAX_VALUES_RETURNED {
      var end :| MAX_VALUES_RETURNED < end <= |all|;
      assert all == all[..end] + all[end..];
      all := all[..end];
    }
    r := Ok(all);
  }

  /** The requested ids a hub can answer: message ids that it holds. */
  function MessagesAmong(ids: set<SyncId>, request: seq<SyncId>): seq<SyncId> {
    Filter(request, id => id in ids && IsMessage(id))
  }

  /** A message id has the byte 1 after its ten timestamp bytes. */
  lemma MessagesAreHeld(ids: set<SyncId>, request: seq<SyncId>)
    ensures forall m :: m in MessagesAmong(ids, request) ==> m in ids && |m| > 10 && m[10] == 1
  {
    forall m | m in MessagesAmong(ids, request)
      ensures m in ids && |m| > 10 && m[10] == 1
    {
      FilterCount(request, id => id in ids && IsMessage(id), m);
      assert multiset(MessagesAmong(ids, request))[m] > 0;
    }
  }

  /**
   * Messages are identified with their sync ids. Only message ids are looked up; the remote
   * handler refuses more than 1024 ids.
   */
  method GetAllMessagesBySyncIds(hub: Hub, request: seq<SyncId>) returns (r: Result<seq<SyncId>>)
    ensures r.Ok? ==> multiset(r.value) <= multiset(MessagesAmong(hub.ids, request))
    ensures r.Ok? ==> forall m :: m in r.value ==> m in hub.ids && |m| > 10 && m[10] == 1
    ensures hub.reliable && (hub.rpc ==> |request| <= MAX_VALUES_RETURNED) ==>
      r == Ok(MessagesAmong(hub.ids, request))
    ensures hub.rpc && |request| > 1024 ==> r.Err?
  {
    var fails := Fails(hub);
    if fails || (hub.rpc && |request| > MAX_VALUES_RETURNED) {
      return Err;
    }
    MessagesAreHeld(hub.ids, request);
    r := Ok(MessagesAmong(hub.ids, request));
  }

  method SubmitMessage(hub: Hub, message: SyncId) returns (hub': Hub, accepted: bool)
    ensures hub' == if accepted then hub.(ids := hub.ids + {message}) else hub
    ensures hub.reliable ==> accepted
  {
    var fails := Fails(hub);
    accepted := !fails;
    hub' := if accepted then hub.(ids := hub.ids + {message}) else hub;
  }
}
