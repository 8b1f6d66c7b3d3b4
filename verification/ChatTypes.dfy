/** Values and functions that several modules share. */
module ChatTypes {
  import opened KeyOrder

  datatype Option<+T> = None | Some(value: T)

  /**
   A message as both stores return it. The key is the message's identity: its id together
   with the created_at that no edit or deletion changes.
   */
  datatype Message = Message(key: Key, text: string, edited: bool, deleted: bool, root: Option<int>)

  const HOT_HISTORY_LIMIT: nat := 300
  const HISTORY_PAGE_SIZE: nat := 50

  function KeysOf(messages: seq<Message>): set<Key> {
    set m | m in messages :: m.key
  }

  /** Writing a list of messages into a hash, later entries winning. */
  function PutAll(hash: map<Key, Message>, messages: seq<Message>): (r: map<Key, Message>)
    ensures r.Keys == hash.Keys + KeysOf(messages)
    decreases |messages|
  {
    if messages == [] then hash
    else
      assert messages == [messages[0]] + messages[1..];
      PutAll(hash[messages[0].key := messages[0]], messages[1..])
  }

  function SaturatingSub(a: nat, b: nat): nat {
    if a < b then 0 else a - b
  }

  lemma SomeElement<T>(s: set<T>) returns (x: T)
    requires s != {}
    ensures x in s
  {
    x :| x in s;
  }
}
