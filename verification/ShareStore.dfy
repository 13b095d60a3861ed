/** The wrapped-share store: shares encrypted by a keystream per slot, with an integrity tag. */
module ShareStore {
  import opened Wrappers
  import opened BigEndians

  /** HMAC-SHA256 under the wrapping key. */
  datatype Hsm = Hsm(hmac: Bytes -> Bytes)

  ghost predicate MacAt(H: Hsm, message: Bytes) { |H.hmac(message)| == 32 }

  ghost predicate HsmLaws(H: Hsm) { forall message :: MacAt(H, message) }

  const COLON: bv8 := 0x3A
  const TAG_LABEL: Bytes := [0x74, 0x61, 0x67]

  datatype WrappedShare = WrappedShare(key: Bytes, node: Bytes, ciphertext: Bytes, tag: Bytes)

  datatype StoreError = NotFound(slot: Bytes) | IntegrityFailure | RestoreDenied

  /** Ids are byte strings; a slot joins them with a colon. */
  function Slot(key: Bytes, node: Bytes): Bytes { key + [COLON] + node }

  /** The keystream block of a slot at a counter. */
  function Block(H: Hsm, slot: Bytes, counter: nat): Bytes { H.hmac(slot + Be64(counter)) }

  /** What the tag covers: label, slot and ciphertext, joined without separators. */
  function Tagged(slot: Bytes, ciphertext: Bytes): Bytes { TAG_LABEL + slot + ciphertext }

  function Tag(H: Hsm, slot: Bytes, ciphertext: Bytes): Bytes { H.hmac(Tagged(slot, ciphertext)) }

  type Store = map<Bytes, WrappedShare>

  // ---------------------------------------------------------------- keystream

  function PadByte(H: Hsm, slot: Bytes, i: nat): bv8 {
    var b := Block(H, slot, i / 32);
    if i % 32 < |b| then b[i % 32] else 0
  }

  /** The bytes to mask with or unmask. */
  function Masked(H: Hsm, slot: Bytes, data: Bytes): (r: Bytes)
    ensures |r| == |data| && forall i :: 0 <= i < |data| ==> r[i] == data[i] ^ PadByte(H, slot, i)
  {
    seq(|data|, i requires 0 <= i < |data| => data[i] ^ PadByte(H, slot, i))
  }

  lemma XorCancels(a: bv8, b: bv8)
    ensures a ^ b ^ b == a
  {
  }

  /** Masking twice gives the data back. */
  lemma MaskedTwice(H: Hsm, slot: Bytes, data: Bytes)
    ensures Masked(H, slot, Masked(H, slot, data)) == data
  {
    forall i | 0 <= i < |data| ensures Masked(H, slot, Masked(H, slot, data))[i] == data[i] {
      XorCancels(data[i], PadByte(H, slot, i));
    }
  }

  /** Blocks are drawn until there are enough, then cut to exactly `len` bytes. */
  method Keystream(H: Hsm, slot: Bytes, len: nat) returns (out: Bytes)
    requires HsmLaws(H)
    ensures |out| == len && forall i :: 0 <= i < len ==> out[i] == PadByte(H, slot, i)
    ensures forall i :: 0 <= i < len ==>
              i % 32 < |H.hmac(slot + Be64(i / 32))| && out[i] == H.hmac(slot + Be64(i / 32))[i % 32]
  {
    out := [];
    var counter: nat := 0;
    while |out| < len
      invariant |out| == 32 * counter
      invariant forall i :: 0 <= i < |out| ==> out[i] == PadByte(H, slot, i)
      decreases len - |out|
    {
      var b := H.hmac(slot + Be64(counter));
      assert MacAt(H, slot + Be64(counter));
      forall i | |out| <= i < |out| + 32 ensures b[i - |out|] == PadByte(H, slot, i) {
        assert i / 32 == counter && i % 32 == i - |out|;
      }
      out := out + b;
      counter := counter + 1;
    }
    out := out[..len];
    forall i | 0 <= i < len
      ensures i % 32 < |H.hmac(slot + Be64(i / 32))| && out[i] == H.hmac(slot + Be64(i / 32))[i % 32]
    {
      PadIsMac(H, slot, i);
    }
  }

  /** Byte i of the pad is byte i mod 32 of the MAC over the slot and the counter i div 32. */
  lemma PadIsMac(H: Hsm, slot: Bytes, i: nat)
    requires HsmLaws(H)
    ensures i % 32 < |H.hmac(slot + Be64(i / 32))| && PadByte(H, slot, i) == H.hmac(slot + Be64(i / 32))[i % 32]
  {
    assert MacAt(H, slot + Be64(i / 32));
  }

  // ---------------------------------------------------------------- operations on the stored map

  function WrapOf(H: Hsm, key: Bytes, node: Bytes, cleartext: Bytes): WrappedShare {
    var slot := Slot(key, node);
    var ct := Masked(H, slot, cleartext);
    WrappedShare(key, node, ct, Tag(H, slot, ct))
  }

  /** The tag fits the ciphertext and the ids the share carries. */
  predicate Authentic(H: Hsm, w: WrappedShare) {
    w.tag == Tag(H, Slot(w.key, w.node), w.ciphertext)
  }

  /** The cleartext a wrapped share stands for. */
  function Meaning(H: Hsm, w: WrappedShare): Bytes {
    Masked(H, Slot(w.key, w.node), w.ciphertext)
  }

  function Unwrap(H: Hsm, st: Store, key: Bytes, node: Bytes): Result<Bytes, StoreError> {
    var slot := Slot(key, node);
    if slot !in st then Err(NotFound(slot))
    else if Tag(H, slot, st[slot].ciphertext) != st[slot].tag then Err(IntegrityFailure)
    else Ok(Masked(H, slot, st[slot].ciphertext))
  }

  function Backup(st: Store, key: Bytes, node: Bytes): Result<WrappedShare, StoreError> {
    var slot := Slot(key, node);
    if slot in st then Ok(st[slot]) else Err(NotFound(slot))
  }

  function Restore(H: Hsm, st: Store, w: WrappedShare, proof: Bytes): (Store, Result<(), StoreError>) {
    if proof == [] then (st, Err(RestoreDenied))
    else if !Authentic(H, w) then (st, Err(IntegrityFailure))
    else (st[Slot(w.key, w.node) := w], Ok(()))
  }

  // ---------------------------------------------------------------- byte by byte

  /** The bytes a share is masked to and back: each is combined with its byte of the slot's MAC stream. */
  ghost predicate MaskedBytes(H: Hsm, slot: Bytes, a: Bytes, b: Bytes) {
    && |a| == |b|
    && forall i :: 0 <= i < |a| ==>
         i % 32 < |H.hmac(slot + Be64(i / 32))| && b[i] == a[i] ^ H.hmac(slot + Be64(i / 32))[i % 32]
  }

  lemma MaskedIsBytes(H: Hsm, slot: Bytes, data: Bytes)
    requires HsmLaws(H)
    ensures MaskedBytes(H, slot, data, Masked(H, slot, data))
  {
    forall i | 0 <= i < |data|
      ensures && i % 32 < |H.hmac(slot + Be64(i / 32))|
              && Masked(H, slot, data)[i] == data[i] ^ H.hmac(slot + Be64(i / 32))[i % 32]
    {
      PadIsMac(H, slot, i);
    }
  }

  /**
   What the tag of a ciphertext at a pair must be: the MAC over "tag", the ids
   joined by a colon, and the ciphertext.
   */
  ghost function TagBytes(H: Hsm, key: Bytes, node: Bytes, ciphertext: Bytes): Bytes {
    H.hmac([0x74, 0x61, 0x67] + (key + [0x3A] + node) + ciphertext)
  }

  /** A wrapped share, byte by byte. */
  lemma WrapExact(H: Hsm, key: Bytes, node: Bytes, cleartext: Bytes)
    requires HsmLaws(H)
    ensures var w := WrapOf(H, key, node, cleartext);
            && w.key == key && w.node == node
            && MaskedBytes(H, key + [0x3A] + node, cleartext, w.ciphertext)
            && w.tag == TagBytes(H, key, node, w.ciphertext)
  {
    MaskedIsBytes(H, Slot(key, node), cleartext);
  }

  /**
   Unwrapping answers with the cleartext exactly when a share is stored whose tag
   fits, and says what is wrong otherwise.
   */
  lemma UnwrapExact(H: Hsm, st: Store, key: Bytes, node: Bytes)
    requires HsmLaws(H)
    ensures var r, slot := Unwrap(H, st, key, node), key + [0x3A] + node;
            && (r == Err(NotFound(slot)) <==> slot !in st)
            && (r == Err(IntegrityFailure) <==>
                  slot in st && st[slot].tag != TagBytes(H, key, node, st[slot].ciphertext))
            && (r.Ok? <==> slot in st && st[slot].tag == TagBytes(H, key, node, st[slot].ciphertext))
            && (r.Ok? ==> MaskedBytes(H, slot, st[slot].ciphertext, r.value))
  {
    var slot := Slot(key, node);
    if slot in st { MaskedIsBytes(H, slot, st[slot].ciphertext); }
  }

  /** Restoring needs a proof first and a tag that fits second; only then is the share stored, under its own ids. */
  lemma RestoreExact(H: Hsm, st: Store, w: WrappedShare, proof: Bytes)
    ensures var (st', r) := Restore(H, st, w, proof);
            var fits := w.tag == TagBytes(H, w.key, w.node, w.ciphertext);
            && (r == Err(RestoreDenied) <==> proof == [])
            && (r == Err(IntegrityFailure) <==> proof != [] && !fits)
            && (r == Ok(()) <==> proof != [] && fits)
            && st' == if r.Ok? then st[w.key + [0x3A] + w.node := w] else st
  {
  }

  /** Tampering with a stored ciphertext is noticed, unless the two messages collide under the MAC. */
  lemma TamperedUnwrap(H: Hsm, st: Store, key: Bytes, node: Bytes, ciphertext: Bytes)
    requires var slot := Slot(key, node);
             && slot in st && st[slot].tag == Tag(H, slot, st[slot].ciphertext) && ciphertext != st[slot].ciphertext
             && (H.hmac(Tagged(slot, ciphertext)) == H.hmac(Tagged(slot, st[slot].ciphertext)) ==>
                   Tagged(slot, ciphertext) == Tagged(slot, st[slot].ciphertext))
    ensures var slot := Slot(key, node);
            Unwrap(H, st[slot := st[slot].(ciphertext := ciphertext)], key, node) == Err(IntegrityFailure)
  {
    var slot := Slot(key, node);
    var a, b := Tagged(slot, ciphertext), Tagged(slot, st[slot].ciphertext);
    assert a[3 + |slot|..] == ciphertext && b[3 + |slot|..] == st[slot].ciphertext;
  }

  class MockHsmStore {
    const hsm: Hsm
    var shares: Store

    constructor (hsm: Hsm)
      ensures this.hsm == hsm && shares == map[]
    {
      this.hsm, shares := hsm, map[];
    }

    /** Wrap and store; the cleartext buffer is zeroed. */
    method WrapShare(key: Bytes, node: Bytes, cleartext: array<bv8>) returns (w: WrappedShare)
      requires HsmLaws(hsm)
      modifies this, cleartext
      ensures w == WrapOf(hsm, key, node, old(cleartext[..]))
      ensures shares == old(shares)[Slot(key, node) := w]
      ensures forall i :: 0 <= i < cleartext.Length ==> cleartext[i] == 0
    {
      var slot := Slot(key, node);
      var ks := Keystream(hsm, slot, cleartext.Length);
      var ct := seq(cleartext.Length, i requires 0 <= i < cleartext.Length reads cleartext => cleartext[i] ^ ks[i]);
      assert ct == Masked(hsm, slot, cleartext[..]);
      for i := 0 to cleartext.Length
        invariant forall k :: 0 <= k < i ==> cleartext[k] == 0
        modifies cleartext
      {
        cleartext[i] := 0;
      }
      w := WrappedShare(key, node, ct, hsm.hmac(TAG_LABEL + slot + ct));
      shares := shares[slot := w];
    }

    method UnwrapShare(key: Bytes, node: Bytes) returns (r: Result<Bytes, StoreError>)
      requires HsmLaws(hsm)
      ensures r == Unwrap(hsm, shares, key, node)
    {
      var slot := Slot(key, node);
      if slot !in shares {
        return Err(NotFound(slot));
      }
      var w := shares[slot];
      if hsm.hmac(TAG_LABEL + slot + w.ciphertext) != w.tag {
        return Err(IntegrityFailure);
      }
      var ks := Keystream(hsm, slot, |w.ciphertext|);
      var clear := seq(|w.ciphertext|, i requires 0 <= i < |w.ciphertext| => w.ciphertext[i] ^ ks[i]);
      assert clear == Masked(hsm, slot, w.ciphertext);
      return Ok(clear);
    }

    method RestoreShare(w: WrappedShare, proof: Bytes) returns (r: Result<(), StoreError>)
      modifies this
      ensures shares == Restore(hsm, old(shares), w, proof).0
      ensures r == Restore(hsm, old(shares), w, proof).1
    {
      if proof == [] {
        return Err(RestoreDenied);
      }
      var slot := Slot(w.key, w.node);
      if hsm.hmac(TAG_LABEL + slot + w.ciphertext) != w.tag {
        return Err(IntegrityFailure);
      }
      shares := shares[slot := w];
      return Ok(());
    }
  }
}

/** Any number of stores under one wrapping key behave like maps from (key, node) to cleartext. */
module ShareStoreRefinement {
  import opened Wrappers
  import opened BigEndians
  import opened ShareStore

  // ---------------------------------------------------------------- slots

  ghost predicate Plain(key: Bytes) { COLON !in key }

  /** One pair's key runs through the other's separator. */
  ghost predicate Straddles(key: Bytes, node: Bytes, key': Bytes, node': Bytes) {
    exists mid: Bytes :: key' == key + [COLON] + mid && node == mid + [COLON] + node'
  }

  lemma SameSlot(key: Bytes, node: Bytes, key': Bytes, node': Bytes)
    requires Slot(key, node) == Slot(key', node') && |key| < |key'|
    ensures Straddles(key, node, key', node')
  {
    var s := Slot(key, node);
    var mid := key'[|key| + 1..];
    assert s[..|key'|] == key' && s[|key'| + 1..] == node';
    assert s[|key|] == COLON && s[|key'|] == COLON && s[|key| + 1..] == node;
    assert key' == key + [COLON] + mid;
    assert node == s[|key| + 1..|key'|] + s[|key'|..];
    assert s[|key'|..] == [COLON] + node';
    assert node == mid + [COLON] + node';
  }

  /** Two different pairs share a slot exactly when one key runs through the other's separator. */
  lemma SlotCollision(key: Bytes, node: Bytes, key': Bytes, node': Bytes)
    ensures Slot(key, node) == Slot(key', node') <==>
            (key, node) == (key', node') || Straddles(key, node, key', node') || Straddles(key', node', key, node)
  {
    if Slot(key, node) == Slot(key', node') {
      if |key| < |key'| {
        SameSlot(key, node, key', node');
      } else if |key'| < |key| {
        SameSlot(key', node', key, node);
      } else {
        var s := Slot(key, node);
        assert s[..|key|] == key && s[..|key|] == key';
        assert s[|key| + 1..] == node && s[|key| + 1..] == node';
      }
    }
    if Straddles(key, node, key', node') {
      var mid: Bytes :| key' == key + [COLON] + mid && node == mid + [COLON] + node';
      assert Slot(key, node) == Slot(key', node');
    }
    if Straddles(key', node', key, node) {
      var mid: Bytes :| key == key' + [COLON] + mid && node' == mid + [COLON] + node;
      assert Slot(key, node) == Slot(key', node');
    }
  }

  /** Key ids without a colon keep slots apart. */
  lemma PlainSlots(key: Bytes, node: Bytes, key': Bytes, node': Bytes)
    requires Plain(key) && Plain(key')
    ensures Slot(key, node) == Slot(key', node') <==> key == key' && node == node'
  {
    SlotCollision(key, node, key', node');
  }

  /** With colliding ids, one pair's share is returned for the other. */
  lemma CollidingUnwrap(H: Hsm, st: Store, key: Bytes, node: Bytes, key': Bytes, node': Bytes, cleartext: Bytes)
    requires Straddles(key, node, key', node') || Straddles(key', node', key, node)
    ensures (key, node) != (key', node')
    ensures Unwrap(H, st[Slot(key, node) := WrapOf(H, key, node, cleartext)], key', node') == Ok(cleartext)
  {
    SlotCollision(key, node, key', node');
    MaskedTwice(H, Slot(key, node), cleartext);
  }

  // ---------------------------------------------------------------- what a tag vouches for

  /** The bytes a wrapped share's tag is computed over. */
  function Message(w: WrappedShare): Bytes { Tagged(Slot(w.key, w.node), w.ciphertext) }

  /**
   A tag vouches for the joined bytes, not for where the ids end: a share that
   reuses an authentic tag is accepted exactly when slot and ciphertext join to
   the same bytes. Between key ids without a colon that means the same key, and
   node id and ciphertext that join to the same bytes.
   */
  lemma RelabelExact(H: Hsm, w: WrappedShare, w': WrappedShare)
    requires Authentic(H, w) && w'.tag == w.tag
    // these two messages do not collide under the MAC
    requires H.hmac(Message(w)) == H.hmac(Message(w')) ==> Message(w) == Message(w')
    ensures Authentic(H, w') <==> Slot(w'.key, w'.node) + w'.ciphertext == Slot(w.key, w.node) + w.ciphertext
    ensures Plain(w.key) && Plain(w'.key) ==>
              (Authentic(H, w') <==> w'.key == w.key && w'.node + w'.ciphertext == w.node + w.ciphertext)
  {
    MessageSplit(w);
    MessageSplit(w');
    if Plain(w.key) && Plain(w'.key) {
      PlainSlots(w.key, w.node + w.ciphertext, w'.key, w'.node + w'.ciphertext);
    }
  }

  lemma MessageSplit(w: WrappedShare)
    ensures Message(w)[|TAG_LABEL|..] == Slot(w.key, w.node) + w.ciphertext == Slot(w.key, w.node + w.ciphertext)
    ensures Message(w) == TAG_LABEL + (Slot(w.key, w.node) + w.ciphertext)
  {
    assert Slot(w.key, w.node) + w.ciphertext == Slot(w.key, w.node + w.ciphertext);
  }

  /** w with its first j ciphertext bytes moved into the node id, under the same tag. */
  function Shifted(w: WrappedShare, j: nat): WrappedShare
    requires j <= |w.ciphertext|
  {
    w.(node := w.node + w.ciphertext[..j], ciphertext := w.ciphertext[j..])
  }

  /**
   Such shares are restored, whatever the MAC: the relabelled node then unwraps
   to bytes that nobody wrapped for it.
   */
  lemma ShiftedAccepted(H: Hsm, st: Store, w: WrappedShare, j: nat, proof: Bytes)
    requires Authentic(H, w) && 0 < j <= |w.ciphertext| && proof != []
    ensures var v := Shifted(w, j);
            var (st', r) := Restore(H, st, v, proof);
            && v.node != w.node && r == Ok(()) && st' == st[Slot(v.key, v.node) := v]
            && Unwrap(H, st', v.key, v.node) == Ok(Masked(H, Slot(v.key, v.node), w.ciphertext[j..]))
  {
    var v := Shifted(w, j);
    assert Message(v) == Message(w) by {
      assert w.ciphertext == w.ciphertext[..j] + w.ciphertext[j..];
      assert Slot(v.key, v.node) + v.ciphertext == Slot(w.key, w.node) + w.ciphertext;
    }
    assert |v.node| > |w.node|;
  }

  // ---------------------------------------------------------------- when a keystream block is a tag

  /**
   Blocks and tags are made under one key. A block is a tag exactly when slot
   and counter join to the tagged bytes; between key ids without a colon, when
   the label leads the block's key id and the rest joins to the same bytes.
   */
  lemma BlockIsTag(H: Hsm, key: Bytes, node: Bytes, counter: nat, key': Bytes, node': Bytes, ciphertext: Bytes)
    // these two messages do not collide under the MAC
    requires H.hmac(Slot(key, node) + Be64(counter)) == H.hmac(Tagged(Slot(key', node'), ciphertext)) ==>
               Slot(key, node) + Be64(counter) == Tagged(Slot(key', node'), ciphertext)
    ensures Block(H, Slot(key, node), counter) == Tag(H, Slot(key', node'), ciphertext) <==>
            Slot(key, node + Be64(counter)) == Slot(TAG_LABEL + key', node' + ciphertext)
    ensures Plain(key) && Plain(key') ==>
              (Block(H, Slot(key, node), counter) == Tag(H, Slot(key', node'), ciphertext) <==>
               key == TAG_LABEL + key' && node + Be64(counter) == node' + ciphertext)
  {
    assert Slot(key, node) + Be64(counter) == Slot(key, node + Be64(counter));
    assert Tagged(Slot(key', node'), ciphertext) == Slot(TAG_LABEL + key', node' + ciphertext);
    if Plain(key) && Plain(key') {
      PlainSlots(key, node + Be64(counter), TAG_LABEL + key', node' + ciphertext);
    }
  }

  /**
   Such blocks are published: wrapping 32 zero bytes under a key id that starts
   with the label gives a ciphertext that is accepted as the tag of a share
   nobody wrapped.
   */
  lemma BlockAccepted(H: Hsm, st: Store, key: Bytes, node: Bytes, proof: Bytes)
    requires HsmLaws(H) && proof != []
    ensures var w := WrapOf(H, TAG_LABEL + key, node, seq(32, _ => 0));
            var v := WrappedShare(key, node, Be64(0), w.ciphertext);
            Restore(H, st, v, proof) == (st[Slot(key, node) := v], Ok(()))
  {
    var slot := Slot(TAG_LABEL + key, node);
    ZerosMasked(H, slot);
    assert slot + Be64(0) == Tagged(Slot(key, node), Be64(0));
  }

  lemma ZerosMasked(H: Hsm, slot: Bytes)
    requires HsmLaws(H)
    ensures Masked(H, slot, seq(32, _ => 0)) == Block(H, slot, 0)
  {
    assert MacAt(H, slot + Be64(0));
    forall i | 0 <= i < 32 ensures Masked(H, slot, seq(32, _ => 0))[i] == Block(H, slot, 0)[i] {
      assert i / 32 == 0 && i % 32 == i;
    }
  }

  // ---------------------------------------------------------------- the abstract stores

  type Pair = (Bytes, Bytes)
  type Pairs = map<Pair, Bytes>

  datatype Op =
    | WrapOp(i: nat, key: Bytes, node: Bytes, cleartext: Bytes)
    | UnwrapOp(i: nat, key: Bytes, node: Bytes)
    | BackupOp(i: nat, key: Bytes, node: Bytes)
    | RestoreOp(i: nat, file: nat, proof: Bytes)
    | ImportOp(i: nat, share: WrappedShare, proof: Bytes)

  datatype Out = Done | Clear(cleartext: Bytes) | Missing | Refused | Tampered | Broken

  /** The stores, and the backup files taken from them. */
  datatype System = System(stores: seq<Store>, files: seq<WrappedShare>)
  datatype Model = Model(stores: seq<Pairs>, files: seq<(Pair, Bytes)>)

  /** The pair an operation names; a restored file brings its own. */
  function Named(op: Op): Option<Pair> {
    match op
    case WrapOp(_, key, node, _) => Some((key, node))
    case UnwrapOp(_, key, node) => Some((key, node))
    case BackupOp(_, key, node) => Some((key, node))
    case RestoreOp(_, _, _) => None
    case ImportOp(_, share, _) => Some((share.key, share.node))
  }

  function Do(H: Hsm, s: System, op: Op): (r: (System, Out))
    requires op.i < |s.stores|
    ensures |r.0.stores| == |s.stores|
  {
    match op
    case WrapOp(i, key, node, cleartext) =>
      (s.(stores := s.stores[i := s.stores[i][Slot(key, node) := WrapOf(H, key, node, cleartext)]]), Done)
    case UnwrapOp(i, key, node) =>
      (s, match Unwrap(H, s.stores[i], key, node)
          case Ok(c) => Clear(c)
          case Err(NotFound(_)) => Missing
          case Err(_) => Broken)
    case BackupOp(i, key, node) =>
      (match Backup(s.stores[i], key, node)
       case Ok(w) => (s.(files := s.files + [w]), Done)
       case Err(_) => (s, Missing))
    case RestoreOp(i, file, proof) =>
      if file >= |s.files| then (s, Missing)
      else
        var (st, r) := Restore(H, s.stores[i], s.files[file], proof);
        (s.(stores := s.stores[i := st]),
         match r case Ok(_) => Done case Err(RestoreDenied) => Refused case Err(_) => Broken)
    case ImportOp(i, share, proof) =>
      var (st, r) := Restore(H, s.stores[i], share, proof);
      (s.(stores := s.stores[i := st]),
       match r case Ok(_) => Done case Err(RestoreDenied) => Refused case Err(_) => Tampered)
  }

  /** The same operations on plain maps. Only a share from outside is looked at: it sets the cleartext it stands for. */
  function Ideal(H: Hsm, m: Model, op: Op): (r: (Model, Out))
    requires op.i < |m.stores|
    ensures |r.0.stores| == |m.stores|
  {
    match op
    case WrapOp(i, key, node, cleartext) => (m.(stores := m.stores[i := m.stores[i][(key, node) := cleartext]]), Done)
    case UnwrapOp(i, key, node) =>
      (m, if (key, node) in m.stores[i] then Clear(m.stores[i][(key, node)]) else Missing)
    case BackupOp(i, key, node) =>
      if (key, node) in m.stores[i] then (m.(files := m.files + [((key, node), m.stores[i][(key, node)])]), Done)
      else (m, Missing)
    case RestoreOp(i, file, proof) =>
      if file >= |m.files| then (m, Missing)
      else if proof == [] then (m, Refused)
      else (m.(stores := m.stores[i := m.stores[i][m.files[file].0 := m.files[file].1]]), Done)
    case ImportOp(i, share, proof) =>
      if proof == [] then (m, Refused)
      else if !Authentic(H, share) then (m, Tampered)
      else (m.(stores := m.stores[i := m.stores[i][(share.key, share.node) := Meaning(H, share)]]), Done)
  }

  // ---------------------------------------------------------------- the simulation

  /** No pair's key runs through another's separator. */
  ghost predicate Apart(pairs: iset<Pair>) {
    forall p, q :: p in pairs && q in pairs ==> !Straddles(p.0, p.1, q.0, q.1)
  }

  /** Key ids without a colon are always apart. */
  lemma PlainApart(pairs: iset<Pair>)
    requires forall p :: p in pairs ==> Plain(p.0)
    ensures Apart(pairs)
  {
    forall p, q | p in pairs && q in pairs ensures !Straddles(p.0, p.1, q.0, q.1) {
      assert Plain(q.0);
    }
  }

  /** w is a well-formed share standing for `cleartext` at (key, node). */
  ghost predicate Represents(H: Hsm, w: WrappedShare, key: Bytes, node: Bytes, cleartext: Bytes) {
    w.key == key && w.node == node && Authentic(H, w) && Meaning(H, w) == cleartext
  }

  ghost predicate CellOk(H: Hsm, st: Store, m: Pairs, p: Pair) {
    && (Slot(p.0, p.1) in st <==> p in m)
    && (p in m ==> Represents(H, st[Slot(p.0, p.1)], p.0, p.1, m[p]))
  }

  ghost predicate StoreRel(H: Hsm, pairs: iset<Pair>, st: Store, m: Pairs) {
    forall p :: p in pairs ==> CellOk(H, st, m, p)
  }

  ghost predicate FileRel(H: Hsm, pairs: iset<Pair>, w: WrappedShare, f: (Pair, Bytes)) {
    f.0 in pairs && Represents(H, w, f.0.0, f.0.1, f.1)
  }

  ghost predicate Rel(H: Hsm, pairs: iset<Pair>, s: System, m: Model) {
    && |s.stores| == |m.stores| && |s.files| == |m.files|
    && (forall i :: 0 <= i < |s.stores| ==> StoreRel(H, pairs, s.stores[i], m.stores[i]))
    && (forall i :: 0 <= i < |s.files| ==> FileRel(H, pairs, s.files[i], m.files[i]))
  }

  /** Putting a well-formed share in its slot is setting the cleartext of its pair. */
  lemma PutRel(H: Hsm, pairs: iset<Pair>, st: Store, m: Pairs, w: WrappedShare, p: Pair, cleartext: Bytes)
    requires Apart(pairs) && p in pairs && StoreRel(H, pairs, st, m) && Represents(H, w, p.0, p.1, cleartext)
    ensures StoreRel(H, pairs, st[Slot(p.0, p.1) := w], m[p := cleartext])
  {
    var st', m' := st[Slot(p.0, p.1) := w], m[p := cleartext];
    forall q | q in pairs ensures CellOk(H, st', m', q) {
      assert CellOk(H, st, m, q);
      SlotCollision(p.0, p.1, q.0, q.1);
    }
  }

  lemma WrapRepresents(H: Hsm, key: Bytes, node: Bytes, cleartext: Bytes)
    ensures Represents(H, WrapOf(H, key, node, cleartext), key, node, cleartext)
  {
    MaskedTwice(H, Slot(key, node), cleartext);
  }

  /** An operation within the pairs. */
  ghost predicate OpWithin(pairs: iset<Pair>, op: Op) { Named(op).Some? ==> Named(op).value in pairs }

  /** Each operation keeps the relation and answers as the plain maps do. */
  lemma DoSimulates(H: Hsm, pairs: iset<Pair>, s: System, m: Model, op: Op)
    requires Apart(pairs) && Rel(H, pairs, s, m) && op.i < |s.stores| && OpWithin(pairs, op)
    ensures Rel(H, pairs, Do(H, s, op).0, Ideal(H, m, op).0) && Do(H, s, op).1 == Ideal(H, m, op).1 != Broken
  {
    match op
    case WrapOp(i, key, node, cleartext) =>
      WrapRepresents(H, key, node, cleartext);
      PutRel(H, pairs, s.stores[i], m.stores[i], WrapOf(H, key, node, cleartext), (key, node), cleartext);
    case UnwrapOp(i, key, node) =>
      assert CellOk(H, s.stores[i], m.stores[i], (key, node));
    case BackupOp(i, key, node) =>
      assert CellOk(H, s.stores[i], m.stores[i], (key, node));
    case RestoreOp(i, file, proof) =>
      if file < |s.files| && proof != [] {
        assert FileRel(H, pairs, s.files[file], m.files[file]);
        PutRel(H, pairs, s.stores[i], m.stores[i], s.files[file], m.files[file].0, m.files[file].1);
      }
    case ImportOp(i, share, proof) =>
      if proof != [] && Authentic(H, share) {
        PutRel(H, pairs, s.stores[i], m.stores[i], share, (share.key, share.node), Meaning(H, share));
      }
  }

  // ---------------------------------------------------------------- runs

  /** Every operation is on one of the n stores. */
  predicate OpsOk(n: nat, ops: seq<Op>) { forall k :: 0 <= k < |ops| ==> ops[k].i < n }

  ghost predicate Within(pairs: iset<Pair>, ops: seq<Op>) { forall k :: 0 <= k < |ops| ==> OpWithin(pairs, ops[k]) }

  /** The answers of a run on the real stores. */
  function Outs(H: Hsm, s: System, ops: seq<Op>): seq<Out>
    requires OpsOk(|s.stores|, ops)
    decreases |ops|
  {
    if ops == [] then [] else [Do(H, s, ops[0]).1] + Outs(H, Do(H, s, ops[0]).0, ops[1..])
  }

  function IdealOuts(H: Hsm, m: Model, ops: seq<Op>): seq<Out>
    requires OpsOk(|m.stores|, ops)
    decreases |ops|
  {
    if ops == [] then [] else [Ideal(H, m, ops[0]).1] + IdealOuts(H, Ideal(H, m, ops[0]).0, ops[1..])
  }

  /**
   Every run of wraps, unwraps, backups, restores and imports of any share, over
   pairs that are apart, answers exactly as the plain maps do; nothing ever breaks.
   */
  lemma {:induction false} StoresRefineMaps(H: Hsm, pairs: iset<Pair>, s: System, m: Model, ops: seq<Op>)
    requires Apart(pairs) && Rel(H, pairs, s, m) && OpsOk(|s.stores|, ops) && Within(pairs, ops)
    ensures Outs(H, s, ops) == IdealOuts(H, m, ops)
    ensures Broken !in Outs(H, s, ops)
    decreases |ops|
  {
    if ops != [] {
      assert OpWithin(pairs, ops[0]);
      DoSimulates(H, pairs, s, m, ops[0]);
      StoresRefineMaps(H, pairs, Do(H, s, ops[0]).0, Ideal(H, m, ops[0]).0, ops[1..]);
    }
  }

  function EmptyStores(n: nat): (s: System)
    ensures |s.stores| == n
  {
    System(seq(n, _ => map[]), [])
  }

  function EmptyModel(n: nat): (m: Model)
    ensures |m.stores| == n
  {
    Model(seq(n, _ => map[]), [])
  }

  /** A run that starts from n empty stores answers as the plain maps do. */
  ghost predicate Refines(H: Hsm, n: nat, ops: seq<Op>)
    requires OpsOk(n, ops)
  {
    Outs(H, EmptyStores(n), ops) == IdealOuts(H, EmptyModel(n), ops)
  }

  /** The pairs a run names. */
  ghost function PairsOf(ops: seq<Op>): iset<Pair> {
    iset p: Pair | exists k :: 0 <= k < |ops| && Named(ops[k]) == Some(p)
  }

  /** Runs that start from any number of empty stores, when the pairs they name are apart. */
  lemma FreshStoresRefine(H: Hsm, n: nat, ops: seq<Op>)
    requires OpsOk(n, ops) && Apart(PairsOf(ops))
    ensures Refines(H, n, ops) && Broken !in Outs(H, EmptyStores(n), ops)
  {
    StoresRefineMaps(H, PairsOf(ops), EmptyStores(n), EmptyModel(n), ops);
  }

  /** Apartness is exact: every run over a set of pairs refines the plain maps exactly when they are apart. */
  lemma RefinementExact(H: Hsm, n: nat, pairs: iset<Pair>)
    requires n > 0
    ensures (forall ops :: OpsOk(n, ops) && Within(pairs, ops) ==> Refines(H, n, ops)) <==> Apart(pairs)
  {
    if Apart(pairs) {
      forall ops | OpsOk(n, ops) && Within(pairs, ops) ensures Refines(H, n, ops) {
        StoresRefineMaps(H, pairs, EmptyStores(n), EmptyModel(n), ops);
      }
    } else {
      var p, q :| p in pairs && q in pairs && Straddles(p.0, p.1, q.0, q.1);
      var ops := [WrapOp(0, p.0, p.1, []), UnwrapOp(0, q.0, q.1)];
      assert OpWithin(pairs, ops[0]) && OpWithin(pairs, ops[1]);
      CollidingRun(H, n, p, q);
    }
  }

  /** The run that tells straddling pairs from plain maps: wrap for one, unwrap for the other. */
  lemma CollidingRun(H: Hsm, n: nat, p: Pair, q: Pair)
    requires n > 0 && Straddles(p.0, p.1, q.0, q.1)
    ensures !Refines(H, n, [WrapOp(0, p.0, p.1, []), UnwrapOp(0, q.0, q.1)])
  {
    var wrap, unwrap := WrapOp(0, p.0, p.1, []), UnwrapOp(0, q.0, q.1);
    var ops := [wrap, unwrap];
    CollidingUnwrap(H, map[], p.0, p.1, q.0, q.1, []);
    assert ops[1..] == [unwrap] && [unwrap][1..] == [];
    assert Do(H, Do(H, EmptyStores(n), wrap).0, unwrap).1 == Clear([]);
    assert Ideal(H, Ideal(H, EmptyModel(n), wrap).0, unwrap).1 == Missing;
    assert Outs(H, EmptyStores(n), ops) == [Done] + Outs(H, Do(H, EmptyStores(n), wrap).0, [unwrap]) ==
      [Done, Clear([])];
    assert IdealOuts(H, EmptyModel(n), ops) == [Done] + IdealOuts(H, Ideal(H, EmptyModel(n), wrap).0, [unwrap]) ==
      [Done, Missing];
  }
}
