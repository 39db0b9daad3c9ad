/**
 * inputs.py: a bounded FIFO of action tokens per player, fed through a
 * per-player keymap from physical keys or in bulk from a network message.
 */
module Inputs {
  import opened Config

  /** A player id (the keys of the session's player table). */
  type Uid = string

  /** A pygame key code. */
  type Key = int

  /** `InputBuffer()`'s default capacity. */
  const DefaultMaxSize: nat := 20

  const KeyW: Key := 119
  const KeyS: Key := 115
  const KeyA: Key := 97
  const KeyD: Key := 100
  const KeyArrowUp: Key := 1073741906
  const KeyArrowDown: Key := 1073741905
  const KeyArrowLeft: Key := 1073741904
  const KeyArrowRight: Key := 1073741903
  const KeyReturn: Key := 13

  /** `PLAYER_KEYMAPS["wasd"]`: four directions and no shooting key. */
  const WasdKeymap: map<Key, KeyType> :=
    map[KeyW := KeyType.Up, KeyS := KeyType.Down, KeyA := KeyType.Left, KeyD := KeyType.Right]

  /** `PLAYER_KEYMAPS["arrows"]`: four directions and RETURN to shoot. */
  const ArrowsKeymap: map<Key, KeyType> :=
    map[KeyArrowUp := KeyType.Up, KeyArrowDown := KeyType.Down, KeyArrowLeft := KeyType.Left,
        KeyArrowRight := KeyType.Right, KeyReturn := KeyType.Shoot]

  /** A player on the "wasd" keymap can never buffer a SHOOT token through a key. */
  lemma WasdHasNoShoot()
    ensures forall k :: k in WasdKeymap ==> WasdKeymap[k] != KeyType.Shoot
    ensures KeyReturn in ArrowsKeymap && ArrowsKeymap[KeyReturn] == KeyType.Shoot
  {
  }

  /** The newest `n` elements of `s` (all of `s` when it is shorter). */
  function LastN<T>(s: seq<T>, n: nat): (r: seq<T>)
    ensures |r| <= n && |r| <= |s|
    ensures |s| <= n ==> r == s
    ensures |s| > n ==> |r| == n
  {
    if |s| <= n then s else s[|s| - n..]
  }

  /** Keeping the newest n, then appending and keeping the newest n again, is the same as keeping the newest n of the whole. */
  lemma LastNAppend<T>(s: seq<T>, x: T, n: nat)
    ensures LastN(LastN(s, n) + [x], n) == LastN(s + [x], n)
  {
    if |s| > n {
      assert LastN(s, n) + [x] == (s + [x])[|s| - n..];
      if n > 0 {
        assert (LastN(s, n) + [x])[1..] == (s + [x])[|s| + 1 - n..];
      }
    }
  }

  /** One more token of a batch, as `add` sees it. */
  lemma LastNStep<T>(start: seq<T>, xs: seq<T>, i: nat, n: nat)
    requires i < |xs|
    ensures LastN(LastN(start + xs[..i], n) + [xs[i]], n) == LastN(start + xs[..i + 1], n)
  {
    LastNAppend(start + xs[..i], xs[i], n);
    assert start + xs[..i + 1] == start + xs[..i] + [xs[i]];
  }

  /** The pending tokens of `uid` in a table of them; empty when it has none. */
  function PendingIn(pending: map<Uid, seq<KeyType>>, uid: Uid): seq<KeyType>
  {
    if uid in pending then pending[uid] else []
  }

  /**
   * The pending tokens after `add_input(uid, key)`: the key's action joins
   * the end of `uid`'s tokens, the oldest dropping out past capacity, when
   * `uid`'s keymap binds the key; otherwise nothing changes.
   */
  function Pressed(pending: map<Uid, seq<KeyType>>, keymaps: map<Uid, map<Key, KeyType>>, uid: Uid, key: Key): map<Uid, seq<KeyType>>
  {
    if uid in keymaps && key in keymaps[uid] then
      pending[uid := LastN(PendingIn(pending, uid) + [keymaps[uid][key]], DefaultMaxSize)]
    else
      pending
  }

  /** `add_input` for every (uid, key) pair of `pressed`, in order. */
  function PressedAll(pending: map<Uid, seq<KeyType>>, keymaps: map<Uid, map<Key, KeyType>>, pressed: seq<(Uid, Key)>): map<Uid, seq<KeyType>>
  {
    if |pressed| == 0 then pending
    else
      var last := |pressed| - 1;
      Pressed(PressedAll(pending, keymaps, pressed[..last]), keymaps, pressed[last].0, pressed[last].1)
  }

  /** Every buffer holds at most `DefaultMaxSize` tokens. */
  predicate WithinCapacity(pending: map<Uid, seq<KeyType>>)
  {
    forall u :: u in pending ==> |pending[u]| <= DefaultMaxSize
  }

  /**
   * Keys only ever add buffers for players that have a keymap, keep every
   * buffer within capacity, and never touch the tokens of a player without
   * a keymap (those arrive only through `add_inputs`).
   */
  lemma {:induction false} PressedAllProperties(pending: map<Uid, seq<KeyType>>, keymaps: map<Uid, map<Key, KeyType>>, pressed: seq<(Uid, Key)>)
    requires WithinCapacity(pending)
    ensures WithinCapacity(PressedAll(pending, keymaps, pressed))
    ensures forall u :: u in PressedAll(pending, keymaps, pressed) ==> u in pending || u in keymaps
    ensures forall u :: u !in keymaps ==> PendingIn(PressedAll(pending, keymaps, pressed), u) == PendingIn(pending, u)
  {
    if |pressed| > 0 {
      PressedAllProperties(pending, keymaps, pressed[..|pressed| - 1]);
    }
  }

  /** A key bound for `uid` puts its action last in `uid`'s tokens. */
  lemma PressedAppends(pending: map<Uid, seq<KeyType>>, keymaps: map<Uid, map<Key, KeyType>>, uid: Uid, key: Key)
    requires uid in keymaps && key in keymaps[uid]
    ensures var r := Pressed(pending, keymaps, uid, key);
      uid in r && |r[uid]| > 0 && r[uid][|r[uid]| - 1] == keymaps[uid][key]
      && |r[uid]| == (if |PendingIn(pending, uid)| < DefaultMaxSize then |PendingIn(pending, uid)| + 1 else DefaultMaxSize)
  {
  }

  /** A second update of the same key overrides the first. */
  lemma UpdateTwice<K, V>(m: map<K, V>, k: K, a: V, b: V)
    ensures m[k := a][k := b] == m[k := b]
  {
    assert m[k := a][k := b].Keys == m[k := b].Keys;
  }

  /**
   * One player's buffer. `add` appends at the end without filtering or
   * cancelling opposite directions, then drops the head when over capacity.
   */
  class InputBuffer {
    var buffer: seq<KeyType>
    const maxSize: nat
    /** The player the buffer was created for; it keeps buffers of distinct players apart. */
    ghost const owner: Uid

    ghost predicate Valid()
      reads this
    {
      |buffer| <= maxSize
    }

    constructor (maxSize: nat, ghost owner: Uid)
      ensures Valid() && buffer == [] && this.maxSize == maxSize && this.owner == owner
    {
      buffer := [];
      this.maxSize := maxSize;
      this.owner := owner;
    }

    method Add(action: KeyType)
      requires Valid()
      modifies this
      ensures Valid()
      ensures buffer == LastN(old(buffer) + [action], maxSize)
      ensures |old(buffer)| < maxSize ==> buffer == old(buffer) + [action]
      ensures |old(buffer)| == maxSize > 0 ==> buffer == old(buffer)[1..] + [action]
    {
      buffer := buffer + [action];
      if |buffer| > maxSize {
        buffer := buffer[1..];
      }
    }

    method GetAll() returns (all: seq<KeyType>)
      ensures all == buffer
    {
      all := buffer;
    }

    method Clear()
      modifies this
      ensures buffer == []
    {
      buffer := [];
    }
  }

  /**
   * Keymaps and lazily created buffers, keyed by player id. Distinct ids
   * own distinct buffers, each of the default capacity.
   */
  class InputManager {
    var playerInputs: map<Uid, InputBuffer>
    var keymaps: map<Uid, map<Key, KeyType>>

    ghost predicate Valid()
      reads this, playerInputs.Values
    {
      forall u :: u in playerInputs ==>
        playerInputs[u].maxSize == DefaultMaxSize && playerInputs[u].Valid() && playerInputs[u].owner == u
    }

    /** The pending tokens of every player that has a buffer. */
    ghost function Inputs(): map<Uid, seq<KeyType>>
      reads this, playerInputs.Values
    {
      map u | u in playerInputs :: playerInputs[u].buffer
    }

    /** The pending tokens of `uid`; empty when it has no buffer. */
    ghost function Pending(uid: Uid): seq<KeyType>
      reads this, playerInputs.Values
    {
      if uid in playerInputs then playerInputs[uid].buffer else []
    }

    /** Whether `key` is bound for `uid` (a missing keymap binds nothing). */
    predicate Maps(uid: Uid, key: Key)
      reads this
    {
      uid in keymaps && key in keymaps[uid]
    }

    constructor (keymaps: map<Uid, map<Key, KeyType>>)
      ensures Valid() && playerInputs == map[] && this.keymaps == keymaps
    {
      playerInputs := map[];
      this.keymaps := keymaps;
    }

    method AddKeymap(uid: Uid, keymap: map<Key, KeyType>)
      requires Valid()
      modifies this
      ensures Valid()
      ensures keymaps == old(keymaps)[uid := keymap]
      ensures playerInputs == old(playerInputs) && Inputs() == old(Inputs())
    {
      keymaps := keymaps[uid := keymap];
    }

    /** Creates `uid`'s buffer when it has none yet and returns it. */
    method EnsureBuffer(uid: Uid) returns (buf: InputBuffer)
      requires Valid()
      modifies this
      ensures Valid() && keymaps == old(keymaps)
      ensures uid in playerInputs && buf == playerInputs[uid] && buf.buffer == old(Pending(uid))
      ensures playerInputs.Keys == old(playerInputs.Keys) + {uid}
      ensures Inputs() == old(Inputs())[uid := old(Pending(uid))]
      ensures forall u :: u in old(playerInputs) ==> playerInputs[u] == old(playerInputs[u])
      ensures fresh(playerInputs.Values - old(playerInputs.Values))
    {
      if uid !in playerInputs {
        var b := new InputBuffer(DefaultMaxSize, uid);
        playerInputs := playerInputs[uid := b];
      }
      buf := playerInputs[uid];
    }

    /**
     * Changing `uid`'s buffer alone, with the table itself untouched,
     * changes `uid`'s pending tokens and no other player's.
     */
    twostate lemma OneBufferChanged(uid: Uid)
      requires old(Valid()) && uid in playerInputs && playerInputs == old(playerInputs)
      requires playerInputs[uid].Valid()
      requires forall u :: u in playerInputs && u != uid ==> playerInputs[u].buffer == old(playerInputs[u].buffer)
      ensures Valid()
      ensures Inputs() == old(Inputs())[uid := playerInputs[uid].buffer]
    {
      assert Inputs().Keys == old(Inputs()).Keys;
    }

    /** The pending tokens and validity depend only on the table and its buffers. */
    twostate lemma InputsKept()
      requires unchanged(this) && forall u :: u in playerInputs ==> unchanged(playerInputs[u])
      ensures Inputs() == old(Inputs())
      ensures old(Valid()) ==> Valid()
    {
    }

    method AddInput(uid: Uid, key: Key)
      requires Valid()
      modifies this, playerInputs.Values
      ensures Valid() && keymaps == old(keymaps)
      ensures Inputs() == Pressed(old(Inputs()), keymaps, uid, key)
      ensures forall u :: u in old(playerInputs) ==> u in playerInputs && playerInputs[u] == old(playerInputs[u])
      ensures fresh(playerInputs.Values - old(playerInputs.Values))
    {
      if uid in keymaps && key in keymaps[uid] {
        var action := keymaps[uid][key];
        ghost var before := Inputs();
        var buf := EnsureBuffer(uid);
        label created:
        buf.Add(action);
        OneBufferChanged@created(uid);
        UpdateTwice(before, uid, old(Pending(uid)), buf.buffer);
      }
    }

    method AddInputs(uid: Uid, inputs: seq<KeyType>)
      requires Valid()
      modifies this, playerInputs.Values
      ensures Valid() && keymaps == old(keymaps)
      ensures playerInputs.Keys == old(playerInputs.Keys) + {uid}
      ensures Inputs() == old(Inputs())[uid := LastN(old(Pending(uid)) + inputs, DefaultMaxSize)]
      ensures forall u :: u in old(playerInputs) ==> playerInputs[u] == old(playerInputs[u])
      ensures fresh(playerInputs.Values - old(playerInputs.Values))
    {
      ghost var before := Inputs();
      var buf := EnsureBuffer(uid);
      ghost var start := buf.buffer;
      label created:
      var i := 0;
      while i < |inputs|
        invariant 0 <= i <= |inputs|
        invariant uid in playerInputs && buf == playerInputs[uid]
        invariant buf.Valid() && buf.maxSize == DefaultMaxSize
        invariant buf.buffer == LastN(start + inputs[..i], DefaultMaxSize)
        modifies buf
      {
        buf.Add(inputs[i]);
        LastNStep(start, inputs, i, DefaultMaxSize);
        i := i + 1;
      }
      assert inputs[..i] == inputs;
      OneBufferChanged@created(uid);
      UpdateTwice(before, uid, start, buf.buffer);
    }

    method GetInputs(uid: Uid) returns (pending: seq<KeyType>)
      ensures pending == Pending(uid)
      ensures pending == if uid in Inputs() then Inputs()[uid] else []
    {
      if uid in playerInputs {
        pending := playerInputs[uid].GetAll();
      } else {
        pending := [];
      }
    }

    method ClearInputs(uid: Uid)
      requires Valid()
      modifies playerInputs.Values
      ensures Valid()
      ensures Inputs() == if uid in old(Inputs()) then old(Inputs())[uid := []] else old(Inputs())
    {
      if uid in playerInputs {
        playerInputs[uid].Clear();
      }
    }
  }
}
