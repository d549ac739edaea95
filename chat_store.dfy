/**
 * The chat store: the chat panel's visibility, the open chat states and a
 * message list per chat state id. Fetching the remote history of a chat
 * (`syncMessages`) is an input: the messages it returns, or nothing.
 */
module ChatStore {
  import opened Wrappers

  datatype ChatType = ReferenceChat | FolderChat

  /** An open chat: about a reference (by its theme) or about a folder. */
  datatype ChatState = ChatState(id: string, theme: string, chatType: ChatType)

  datatype ChatMessage = ChatMessage(content: string, isUserMessage: bool)

  /** The chat states and the messages by chat state id. */
  datatype Chats = Chats(states: seq<ChatState>, messages: map<string, seq<ChatMessage>>)

  /** The part of the app state this store saves and loads. */
  datatype ChatSaved = ChatSaved(
    chatVisibility: bool, chatStates: seq<ChatState>,
    chatMessages: map<string, seq<ChatMessage>>, currentChatState: Option<ChatState>)

  /** The ids of a list of chat states, in order. */
  function StateIds(states: seq<ChatState>): (r: seq<string>)
    ensures |r| == |states| && forall i :: 0 <= i < |states| ==> r[i] == states[i].id
  {
    seq(|states|, i requires 0 <= i < |states| => states[i].id)
  }

  /** Chat state ids are distinct and every chat state has a message list. */
  predicate Consistent(c: Chats) {
    (forall i, j :: 0 <= i < j < |c.states| ==> c.states[i].id != c.states[j].id)
    && forall i :: 0 <= i < |c.states| ==> c.states[i].id in c.messages
  }

  /** `synced || []`. */
  function OrEmpty(synced: Option<seq<ChatMessage>>): (r: seq<ChatMessage>)
    ensures synced.Some? ==> r == synced.value
    ensures synced.None? ==> r == []
  {
    if synced.Some? then synced.value else []
  }

  /** `addChatState(s)` with the synced messages: only a state whose id has
      no message list yet is added. */
  function Added(c: Chats, s: ChatState, synced: Option<seq<ChatMessage>>): (r: Chats)
    ensures s.id in c.messages ==> r == c
    ensures s.id !in c.messages ==> r == Chats(c.states + [s], c.messages[s.id := OrEmpty(synced)])
  {
    if s.id in c.messages then c
    else Chats(c.states + [s], c.messages[s.id := OrEmpty(synced)])
  }

  /** `addMessageToChatState(theme, message)`: appended only to an existing list. */
  function WithMessage(c: Chats, theme: string, message: ChatMessage): (r: Chats)
    ensures theme !in c.messages ==> r == c
    ensures theme in c.messages ==> r.states == c.states && r.messages == c.messages[theme := c.messages[theme] + [message]]
  {
    if theme in c.messages then Chats(c.states, c.messages[theme := c.messages[theme] + [message]]) else c
  }

  /** `findIndex(state => state._id === id)`. */
  function IndexOfState(states: seq<ChatState>, id: string): (r: int)
    ensures -1 <= r < |states|
    ensures r >= 0 ==> states[r].id == id && forall k :: 0 <= k < r ==> states[k].id != id
    ensures r == -1 ==> forall k :: 0 <= k < |states| ==> states[k].id != id
  {
    if |states| == 0 then -1
    else if states[0].id == id then 0
    else
      var k := IndexOfState(states[1..], id);
      if k < 0 then -1 else k + 1
  }

  /** `removeChatState(id)`: the first state with the id goes, and its
      message list is deleted either way. */
  function Removed(c: Chats, id: string): (r: Chats)
    ensures r.messages == c.messages - {id}
    ensures IndexOfState(c.states, id) == -1 ==> r.states == c.states
    ensures IndexOfState(c.states, id) >= 0 ==> (
      var k := IndexOfState(c.states, id);
      r.states == c.states[..k] + c.states[k + 1..])
  {
    var k := IndexOfState(c.states, id);
    if k == -1 then Chats(c.states, c.messages - {id})
    else Chats(c.states[..k] + c.states[k + 1..], c.messages - {id})
  }

  /** Adding, appending messages and removing keep the chats consistent. */
  lemma OperationsKeepConsistent(c: Chats, s: ChatState, synced: Option<seq<ChatMessage>>,
                                 theme: string, message: ChatMessage, id: string)
    requires Consistent(c)
    ensures Consistent(Added(c, s, synced))
    ensures Consistent(WithMessage(c, theme, message))
    ensures Consistent(Removed(c, id))
  {
    AddedConsistent(c, s, synced);
    WithMessageConsistent(c, theme, message);
    RemovedConsistent(c, id);
  }

  lemma AddedConsistent(c: Chats, s: ChatState, synced: Option<seq<ChatMessage>>)
    requires Consistent(c)
    ensures Consistent(Added(c, s, synced))
  {
  }

  lemma WithMessageConsistent(c: Chats, theme: string, message: ChatMessage)
    requires Consistent(c)
    ensures Consistent(WithMessage(c, theme, message))
  {
  }

  lemma RemovedConsistent(c: Chats, id: string)
    requires Consistent(c)
    ensures Consistent(Removed(c, id))
  {
    var r := Removed(c, id);
    var k := IndexOfState(c.states, id);
    if k >= 0 {
      var rest := c.states[..k] + c.states[k + 1..];
      forall i | 0 <= i < |rest| ensures rest[i].id in r.messages {
        RemoveAt(c.states, k, i);
      }
      forall i, j | 0 <= i < j < |rest| ensures rest[i].id != rest[j].id {
        RemoveAt(c.states, k, i);
        RemoveAt(c.states, k, j);
      }
    }
  }

  /** The states after the k-th one move down by one. */
  lemma RemoveAt(states: seq<ChatState>, k: int, i: int)
    requires 0 <= k < |states| && 0 <= i < |states| - 1
    ensures (states[..k] + states[k + 1..])[i] == states[if i < k then i else i + 1]
  {
  }

  /** The first state with an id that no earlier state has is the
      appended one. */
  lemma {:induction false} IndexOfAppended(states: seq<ChatState>, s: ChatState)
    requires forall k :: 0 <= k < |states| ==> states[k].id != s.id
    ensures IndexOfState(states + [s], s.id) == |states|
  {
    if |states| > 0 {
      assert (states + [s])[1..] == states[1..] + [s];
      IndexOfAppended(states[1..], s);
    }
  }

  /** Removing a chat state that was just added restores the chats. */
  lemma AddThenRemove(c: Chats, s: ChatState, synced: Option<seq<ChatMessage>>)
    requires Consistent(c) && s.id !in c.messages
    ensures Removed(Added(c, s, synced), s.id) == c
  {
    var a := Added(c, s, synced);
    IndexOfAppended(c.states, s);
    assert a.states[..|c.states|] == c.states;
    assert c.messages[s.id := OrEmpty(synced)] - {s.id} == c.messages;
  }

  /** The messages after `loadState`'s loop: each listed chat's id gets its
      synced messages, the last listing of an id winning. */
  function SyncedFrom(base: map<string, seq<ChatMessage>>, states: seq<ChatState>,
                      synced: ChatState -> Option<seq<ChatMessage>>): (r: map<string, seq<ChatMessage>>)
    decreases |states|
  {
    if |states| == 0 then base
    else
      var last := states[|states| - 1];
      SyncedFrom(base, states[..|states| - 1], synced)[last.id := OrEmpty(synced(last))]
  }

  /** The message keys after the loop: the stored ones and the listed
      chats' ids; an id no chat has keeps its stored list. */
  lemma {:induction false} SyncedFromKeys(base: map<string, seq<ChatMessage>>, states: seq<ChatState>,
                                          synced: ChatState -> Option<seq<ChatMessage>>)
    ensures var r := SyncedFrom(base, states, synced);
      (forall id :: id in r <==> id in base || id in StateIds(states))
      && forall id :: id in base && id !in StateIds(states) ==> r[id] == base[id]
    decreases |states|
  {
    if |states| > 0 {
      var init := states[..|states| - 1];
      SyncedFromKeys(base, init, synced);
      assert StateIds(states) == StateIds(init) + [states[|states| - 1].id];
    }
  }

  /** A listed chat with no later listing of its id ends with its synced
      messages. */
  lemma {:induction false} SyncedFromLast(base: map<string, seq<ChatMessage>>, states: seq<ChatState>,
                                          synced: ChatState -> Option<seq<ChatMessage>>, i: nat)
    requires i < |states| && forall j :: i < j < |states| ==> states[j].id != states[i].id
    ensures var r := SyncedFrom(base, states, synced);
      states[i].id in r && r[states[i].id] == OrEmpty(synced(states[i]))
    decreases |states|
  {
    if i < |states| - 1 {
      var init := states[..|states| - 1];
      SyncedFromLast(base, init, synced, i);
    }
  }

  class Store {
    var initialized: bool
    var chatVisibility: bool
    var currentChatState: Option<ChatState>
    var chats: Chats
    var showModal: bool

    constructor()
      ensures !initialized && !chatVisibility && currentChatState.None?
      ensures chats == Chats([], map[]) && !showModal
    {
      initialized := false;
      chatVisibility := false;
      currentChatState := None;
      chats := Chats([], map[]);
      showModal := false;
    }

    method ToggleChatVisibility()
      modifies this`chatVisibility
      ensures chatVisibility == !old(chatVisibility)
    {
      chatVisibility := !chatVisibility;
    }

    method ShowChat()
      modifies this`chatVisibility
      ensures chatVisibility
    {
      chatVisibility := true;
    }

    method HideChat()
      modifies this`chatVisibility
      ensures !chatVisibility
    {
      chatVisibility := false;
    }

    /** `setCurrentChatState(state)`: sets the state and shows the chat. */
    method SetCurrentChatState(s: ChatState)
      modifies this`currentChatState, this`chatVisibility
      ensures currentChatState == Some(s) && chatVisibility
    {
      currentChatState := Some(s);
      ShowChat();
    }

    method AddChatState(s: ChatState, synced: Option<seq<ChatMessage>>)
      modifies this`chats
      ensures chats == Added(old(chats), s, synced)
    {
      if s.id !in chats.messages {
        chats := Chats(chats.states + [s], chats.messages[s.id := OrEmpty(synced)]);
      }
    }

    method AddMessageToChatState(theme: string, message: ChatMessage)
      modifies this`chats
      ensures chats == WithMessage(old(chats), theme, message)
    {
      if theme in chats.messages {
        chats := chats.(messages := chats.messages[theme := chats.messages[theme] + [message]]);
      }
    }

    method RemoveChatState(id: string)
      modifies this`chats
      ensures chats == Removed(old(chats), id)
    {
      var index := IndexOfState(chats.states, id);
      if index != -1 {
        chats := chats.(states := chats.states[..index] + chats.states[index + 1..]);
      }
      chats := chats.(messages := chats.messages - {id});
    }

    method OpenModal()
      modifies this`showModal
      ensures showModal
    {
      showModal := true;
    }

    method HideModal()
      modifies this`showModal
      ensures !showModal
    {
      showModal := false;
    }

    /** `loadState(state)`: only the first call loads; each listed chat's
      messages are then replaced by its synced ones. */
    method LoadState(state: ChatSaved, synced: ChatState -> Option<seq<ChatMessage>>)
      modifies this`initialized, this`chatVisibility, this`chats, this`currentChatState
      ensures old(initialized) ==> (
        initialized && chatVisibility == old(chatVisibility)
        && chats == old(chats) && currentChatState == old(currentChatState))
      ensures !old(initialized) ==> (
        initialized && chatVisibility == state.chatVisibility
        && currentChatState == state.currentChatState
        && chats == Chats(state.chatStates, SyncedFrom(state.chatMessages, state.chatStates, synced)))
    {
      if initialized {
        return;
      }
      chatVisibility := state.chatVisibility;
      chats := Chats(state.chatStates, state.chatMessages);
      currentChatState := state.currentChatState;
      initialized := true;
      for i := 0 to |state.chatStates|
        invariant initialized && chatVisibility == state.chatVisibility && currentChatState == state.currentChatState
        invariant chats == Chats(state.chatStates, SyncedFrom(state.chatMessages, state.chatStates[..i], synced))
      {
        var s := state.chatStates[i];
        assert state.chatStates[..i + 1][..i] == state.chatStates[..i];
        chats := chats.(messages := chats.messages[s.id := OrEmpty(synced(s))]);
      }
      assert state.chatStates[..|state.chatStates|] == state.chatStates;
    }

    /** `saveState()`: exactly the four chat fields. */
    method SaveState() returns (r: ChatSaved)
      ensures r == ChatSaved(chatVisibility, chats.states, chats.messages, currentChatState)
    {
      r := ChatSaved(chatVisibility, chats.states, chats.messages, currentChatState);
    }
  }

  /** Loading a saved chat state makes every saved chat consistent again:
      each gets a message list. */
  lemma LoadedConsistent(state: ChatSaved, synced: ChatState -> Option<seq<ChatMessage>>)
    requires forall i, j :: 0 <= i < j < |state.chatStates| ==> state.chatStates[i].id != state.chatStates[j].id
    ensures Consistent(Chats(state.chatStates, SyncedFrom(state.chatMessages, state.chatStates, synced)))
  {
    SyncedFromKeys(state.chatMessages, state.chatStates, synced);
    var r := SyncedFrom(state.chatMessages, state.chatStates, synced);
    forall i | 0 <= i < |state.chatStates| ensures state.chatStates[i].id in r {
      assert StateIds(state.chatStates)[i] == state.chatStates[i].id;
    }
  }
}
