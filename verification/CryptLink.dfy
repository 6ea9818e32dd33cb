/** Two peers of the stream cipher and a channel each way that keeps order.  The peers send,
    receive and change their keys in any order and cut the streams up as they like. */
module CryptLink {
  import opened ByteOrder
  import opened Crypt

  /** One direction: the cursors at its two ends, what is under way, and a record of what was
      sent and received and under which key. */
  datatype Lane = Lane(sender: Cursor, receiver: Cursor, wire: seq<Byte>,
                       sent: seq<Byte>, sentKeys: seq<Key>, got: seq<Byte>, gotKeys: seq<Key>)

  function NewLane(c: Cursor): Lane {
    Lane(c, c, [], [], [], [], [])
  }

  /** `encryptSend` on a chunk, which then goes out. */
  function Send(l: Lane, key: Key, t: seq<Byte>): Lane {
    var keys := Repeat(key, |t|);
    var x := Encrypted(l.sender, t, keys);
    l.(sender := After(l.sender, x, keys), wire := l.wire + x,
       sent := l.sent + t, sentKeys := l.sentKeys + keys)
  }

  /** `decryptRecv` on the next n bytes that came in. */
  function Receive(l: Lane, key: Key, n: nat): Lane
    requires n <= |l.wire|
  {
    var keys := Repeat(key, n);
    var x := l.wire[..n];
    l.(receiver := After(l.receiver, x, keys), wire := l.wire[n..],
       got := l.got + Decrypted(l.receiver, x, keys), gotKeys := l.gotKeys + keys)
  }

  datatype Link = Link(leftKey: seq<Byte>, rightKey: seq<Byte>, there: Lane, back: Lane)

  datatype Action =
    | SetKey(left: bool, key: seq<Byte>)
    | SendChunk(left: bool, text: seq<Byte>)
    | ReceiveChunk(left: bool, count: nat)

  function Min(a: nat, b: nat): nat {
    if a < b then a else b
  }

  /** A peer that receives takes what has come in, up to the count. */
  function Step(s: Link, a: Action): Link {
    match a
    case SetKey(left, key) => if left then s.(leftKey := key) else s.(rightKey := key)
    case SendChunk(true, t) =>
      var key := Effective(s.leftKey);
      s.(leftKey := key, there := Send(s.there, key, t))
    case SendChunk(false, t) =>
      var key := Effective(s.rightKey);
      s.(rightKey := key, back := Send(s.back, key, t))
    case ReceiveChunk(true, n) =>
      var key := Effective(s.leftKey);
      s.(leftKey := key, back := Receive(s.back, key, Min(n, |s.back.wire|)))
    case ReceiveChunk(false, n) =>
      var key := Effective(s.rightKey);
      s.(rightKey := key, there := Receive(s.there, key, Min(n, |s.there.wire|)))
  }

  function Run(s: Link, script: seq<Action>): Link {
    if script == [] then s
    else
      var n := |script| - 1;
      Step(Run(s, script[..n]), script[n])
  }

  /** A receiving peer gets as many bytes as it asked for, or all there are; the rest stays. */
  lemma ReceiveTakes(s: Link, n: nat)
    ensures var l, r := s.back, Step(s, ReceiveChunk(true, n)).back;
            var k := if n < |l.wire| then n else |l.wire|;
            |r.got| == |l.got| + k && r.wire == l.wire[k..] && r.sent == l.sent
    ensures var l, r := s.there, Step(s, ReceiveChunk(false, n)).there;
            var k := if n < |l.wire| then n else |l.wire|;
            |r.got| == |l.got| + k && r.wire == l.wire[k..] && r.sent == l.sent
  {
    hide Decrypted, After;
  }

  // ---- the invariant of a lane that started with both cursors at c ----

  ghost predicate InStep(l: Lane, c: Cursor) {
    && |l.sentKeys| == |l.sent|
    && |l.gotKeys| == |l.got| <= |l.sent|
    && var x := Encrypted(c, l.sent, l.sentKeys);
    && l.wire == x[|l.got|..]
    && l.sender == After(c, x, l.sentKeys)
    && l.receiver == After(c, x[..|l.got|], l.gotKeys)
    && l.got == Decrypted(c, x[..|l.got|], l.gotKeys)
  }

  lemma SendKeepsStep(l: Lane, c: Cursor, key: Key, t: seq<Byte>)
    requires InStep(l, c)
    ensures InStep(Send(l, key, t), c)
  {
    hide Encrypted, Decrypted, After, Repeat;
    var keys := Repeat(key, |t|);
    var x := Encrypted(c, l.sent, l.sentKeys);
    var y := Encrypted(l.sender, t, keys);
    EncryptedInChunks(c, l.sent, t, l.sentKeys, keys);
    AfterInChunks(c, x, y, l.sentKeys, keys);
    assert (x + y)[..|l.got|] == x[..|l.got|];
  }

  lemma ReceiveKeepsStep(l: Lane, c: Cursor, key: Key, n: nat)
    requires InStep(l, c) && n <= |l.wire|
    ensures InStep(Receive(l, key, n), c)
  {
    hide Encrypted, Decrypted, After, Repeat;
    var keys := Repeat(key, n);
    var x := Encrypted(c, l.sent, l.sentKeys);
    DecryptedInChunks(c, x[..|l.got|], l.wire[..n], l.gotKeys, keys);
    AfterInChunks(c, x[..|l.got|], l.wire[..n], l.gotKeys, keys);
    assert x[..|l.got| + n] == x[..|l.got|] + l.wire[..n];
  }

  lemma {:induction false} RunKeepsStep(s: Link, script: seq<Action>, c: Cursor, d: Cursor)
    requires InStep(s.there, c) && InStep(s.back, d)
    ensures InStep(Run(s, script).there, c) && InStep(Run(s, script).back, d)
  {
    hide InStep, Send, Receive, Effective;
    if script != [] {
      var n := |script| - 1;
      RunKeepsStep(s, script[..n], c, d);
      StepKeepsStep(Run(s, script[..n]), script[n], c, d);
    }
  }

  lemma StepKeepsStep(s: Link, a: Action, c: Cursor, d: Cursor)
    requires InStep(s.there, c) && InStep(s.back, d)
    ensures InStep(Step(s, a).there, c) && InStep(Step(s, a).back, d)
  {
    hide InStep, Send, Receive, Effective;
    match a
    case SetKey(_, _) =>
    case SendChunk(true, t) => SendKeepsStep(s.there, c, Effective(s.leftKey), t);
    case SendChunk(false, t) => SendKeepsStep(s.back, d, Effective(s.rightKey), t);
    case ReceiveChunk(true, n) =>
      ReceiveKeepsStep(s.back, d, Effective(s.leftKey), Min(n, |s.back.wire|));
    case ReceiveChunk(false, n) =>
      ReceiveKeepsStep(s.there, c, Effective(s.rightKey), Min(n, |s.there.wire|));
  }

  // ---- what arrives ----

  lemma Arrived(l: Lane, c: Cursor, n: nat)
    requires InStep(l, c) && n < |l.got|
    ensures l.got[n] == l.sent[n] <==> KeyByteAt(c.i, l.sentKeys, n) == KeyByteAt(c.i, l.gotKeys, n)
  {
    hide Decrypted, Encrypted, After, KeyByteAt;
    var m := |l.got|;
    var t, ks := l.sent[..m], l.sentKeys[..m];
    PrefixEncrypted(c, l.sent, l.sentKeys, m);
    RecoveredExactly(c, t, ks, l.gotKeys, n);
    SameKeyByte(c.i, l.sentKeys, m, n);
  }

  lemma PrefixEncrypted(c: Cursor, t: seq<Byte>, ks: seq<Key>, m: nat)
    requires |ks| == |t| && m <= |t|
    ensures Encrypted(c, t, ks)[..m] == Encrypted(c, t[..m], ks[..m])
  {
    hide After;
    EncryptedInChunks(c, t[..m], t[m..], ks[..m], ks[m..]);
    assert t == t[..m] + t[m..] && ks == ks[..m] + ks[m..];
  }

  lemma SameKeyByte(i: Byte, keys: seq<Key>, m: nat, n: nat)
    requires n < m <= |keys|
    ensures KeyByteAt(i, keys[..m], n) == KeyByteAt(i, keys, n)
  {
    assert keys[..m][..n] == keys[..n];
  }

  // ---- over whole runs ----

  function Texts(script: seq<Action>, left: bool): seq<Byte> {
    if script == [] then []
    else
      var n := |script| - 1;
      Texts(script[..n], left) +
      if script[n].SendChunk? && script[n].left == left then script[n].text else []
  }

  lemma {:induction false} SentIsTexts(s: Link, script: seq<Action>)
    ensures Run(s, script).there.sent == s.there.sent + Texts(script, true)
    ensures Run(s, script).back.sent == s.back.sent + Texts(script, false)
  {
    hide Encrypted, Decrypted, After, Effective;
    if script != [] {
      SentIsTexts(s, script[..|script| - 1]);
    }
  }

  function Start(leftKey: seq<Byte>, rightKey: seq<Byte>, c: Cursor, d: Cursor): Link {
    Link(leftKey, rightKey, NewLane(c), NewLane(d))
  }

  lemma StartInStep(c: Cursor)
    ensures InStep(NewLane(c), c)
  {}

  ghost predicate Exact(l: Lane, c: Cursor, text: seq<Byte>) {
    && l.sent == text && |l.sentKeys| == |text|
    && |l.gotKeys| == |l.got| && |l.got| + |l.wire| == |text|
    && forall n :: 0 <= n < |l.got| ==>
         (l.got[n] == text[n] <==> KeyByteAt(c.i, l.sentKeys, n) == KeyByteAt(c.i, l.gotKeys, n))
  }

  lemma InStepIsExact(l: Lane, c: Cursor)
    requires InStep(l, c)
    ensures Exact(l, c, l.sent)
  {
    hide KeyByteAt, Encrypted, Decrypted, After;
    forall n | 0 <= n < |l.got|
      ensures l.got[n] == l.sent[n] <==> KeyByteAt(c.i, l.sentKeys, n) == KeyByteAt(c.i, l.gotKeys, n)
    {
      Arrived(l, c, n);
    }
  }

  /** Any run, any keys: nothing is lost, and each byte that arrived is right if and only if it
      met the same key byte at both ends. */
  lemma RunDeliversExactly(leftKey: seq<Byte>, rightKey: seq<Byte>, c: Cursor, d: Cursor,
                           script: seq<Action>)
    ensures var s := Run(Start(leftKey, rightKey, c, d), script);
            Exact(s.there, c, Texts(script, true)) && Exact(s.back, d, Texts(script, false))
  {
    hide InStep, Exact, Run;
    var s0 := Start(leftKey, rightKey, c, d);
    StartInStep(c);
    StartInStep(d);
    RunKeepsStep(s0, script, c, d);
    SentIsTexts(s0, script);
    assert [] + Texts(script, true) == Texts(script, true);
    assert [] + Texts(script, false) == Texts(script, false);
    InStepIsExact(Run(s0, script).there, c);
    InStepIsExact(Run(s0, script).back, d);
  }

  /** When the key changed at the same places of the stream at both ends, what has arrived is a
      prefix of what was sent. */
  lemma KeysInStepDeliver(l: Lane, c: Cursor, text: seq<Byte>)
    requires Exact(l, c, text) && l.gotKeys <= l.sentKeys
    ensures l.got <= text
  {
    hide KeyByteAt;
    forall n: nat | n < |l.got| ensures l.got[n] == text[n] {
      SameKeyByte(c.i, l.sentKeys, |l.got|, n);
      assert l.sentKeys[..|l.got|] == l.gotKeys;
    }
  }

  /** The peers agree on the key, and so did the ends of each byte that has arrived; what is
      under way went out with the present key. */
  ghost predicate Agreed(s: Link, key: Key) {
    && Effective(s.leftKey) == Effective(s.rightKey) == key
    && LaneAgreed(s.there, key) && LaneAgreed(s.back, key)
  }

  ghost predicate LaneAgreed(l: Lane, key: Key) {
    && l.gotKeys <= l.sentKeys && |l.gotKeys| + |l.wire| == |l.sentKeys|
    && forall n :: |l.gotKeys| <= n < |l.sentKeys| ==> l.sentKeys[n] == key
  }

  lemma StepKeepsAgreed(s: Link, a: Action, key: Key)
    requires Agreed(s, key) && !a.SetKey?
    ensures Agreed(Step(s, a), key)
  {
    hide Encrypted, Decrypted, After, DefaultKey;
  }

  /** A new key is agreed when both peers take it while nothing is under way. */
  lemma Rekeyed(s: Link, key: Key, newKey: Key, leftFirst: bool)
    requires Agreed(s, key) && s.there.wire == s.back.wire == []
    ensures Agreed(Step(Step(s, SetKey(leftFirst, newKey)), SetKey(!leftFirst, newKey)), newKey)
  {}

  lemma {:induction false} RunKeepsAgreed(s: Link, script: seq<Action>, key: Key)
    requires Agreed(s, key)
    requires forall k :: 0 <= k < |script| ==> !script[k].SetKey?
    ensures Agreed(Run(s, script), key)
  {
    hide Agreed, Step;
    if script != [] {
      var n := |script| - 1;
      RunKeepsAgreed(s, script[..n], key);
      StepKeepsAgreed(Run(s, script[..n]), script[n], key);
    }
  }

  /** Peers that start with the same key and cursors and keep their key deliver, both ways at
      once, a prefix of the text. */
  lemma SameKeyDelivers(leftKey: seq<Byte>, rightKey: seq<Byte>, c: Cursor, d: Cursor,
                        script: seq<Action>)
    requires Effective(leftKey) == Effective(rightKey)
    requires forall k :: 0 <= k < |script| ==> !script[k].SetKey?
    ensures var s := Run(Start(leftKey, rightKey, c, d), script);
            && s.there.got <= Texts(script, true) && s.back.got <= Texts(script, false)
            && |s.there.got| + |s.there.wire| == |Texts(script, true)|
            && |s.back.got| + |s.back.wire| == |Texts(script, false)|
  {
    hide Effective, Run, KeyByteAt;
    var s := Run(Start(leftKey, rightKey, c, d), script);
    RunDeliversExactly(leftKey, rightKey, c, d, script);
    RunKeepsAgreed(Start(leftKey, rightKey, c, d), script, Effective(leftKey));
    KeysInStepDeliver(s.there, c, Texts(script, true));
    KeysInStepDeliver(s.back, d, Texts(script, false));
  }

  // ---- keys that change while bytes are under way ----

  /** The next n bytes went out under this key. */
  ghost predicate SentUnder(l: Lane, key: Key, n: nat) {
    |l.got| + n <= |l.sentKeys| && forall k :: |l.got| <= k < |l.got| + n ==> l.sentKeys[k] == key
  }

  /** A peer changes its key when it likes, but receives only what went out under the key it now
      has: it takes the new key exactly when it has consumed what was sent under the old one. */
  ghost predicate InTime(s: Link, a: Action) {
    match a
    case ReceiveChunk(true, n) => SentUnder(s.back, Effective(s.leftKey), Min(n, |s.back.wire|))
    case ReceiveChunk(false, n) => SentUnder(s.there, Effective(s.rightKey), Min(n, |s.there.wire|))
    case _ => true
  }

  ghost predicate AllInTime(s: Link, script: seq<Action>) {
    script == [] ||
    (AllInTime(s, script[..|script| - 1]) && InTime(Run(s, script[..|script| - 1]), script[|script| - 1]))
  }

  /** Every byte that has arrived met the key it was sent under. */
  ghost predicate KeysKept(s: Link) {
    s.there.gotKeys <= s.there.sentKeys && s.back.gotKeys <= s.back.sentKeys
  }

  lemma SendKeepsKeys(l: Lane, key: Key, t: seq<Byte>)
    requires |l.gotKeys| <= |l.sentKeys|
    ensures Send(l, key, t).gotKeys <= Send(l, key, t).sentKeys <==> l.gotKeys <= l.sentKeys
  {
    hide Encrypted, After;
    var l' := Send(l, key, t);
    assert l'.sentKeys[..|l.gotKeys|] == l.sentKeys[..|l.gotKeys|];
  }

  lemma ReceiveKeepsKeys(l: Lane, key: Key, n: nat)
    requires |l.gotKeys| == |l.got| && |l.got| + |l.wire| == |l.sentKeys| && n <= |l.wire|
    ensures Receive(l, key, n).gotKeys <= Receive(l, key, n).sentKeys <==>
            l.gotKeys <= l.sentKeys && SentUnder(l, key, n)
  {
    hide Decrypted, After;
    var l' := Receive(l, key, n);
    var g := |l.got|;
    if l'.gotKeys <= l'.sentKeys {
      assert l.gotKeys == l'.gotKeys[..g] == l.sentKeys[..g];
      forall k | g <= k < g + n ensures l.sentKeys[k] == key {
        assert l'.gotKeys[k] == key;
      }
    }
    if l.gotKeys <= l.sentKeys && SentUnder(l, key, n) {
      forall k | 0 <= k < g + n ensures l'.gotKeys[k] == l.sentKeys[k] {}
    }
  }

  lemma StepKeepsKeys(s: Link, a: Action, c: Cursor, d: Cursor)
    requires InStep(s.there, c) && InStep(s.back, d)
    ensures KeysKept(Step(s, a)) <==> KeysKept(s) && InTime(s, a)
  {
    hide Send, Receive, Effective, SentUnder, Encrypted, Decrypted, After;
    match a
    case SetKey(_, _) =>
    case SendChunk(true, t) =>
      SendKeepsKeys(s.there, Effective(s.leftKey), t);
    case SendChunk(false, t) =>
      SendKeepsKeys(s.back, Effective(s.rightKey), t);
    case ReceiveChunk(true, n) =>
      ReceiveKeepsKeys(s.back, Effective(s.leftKey), Min(n, |s.back.wire|));
    case ReceiveChunk(false, n) =>
      ReceiveKeepsKeys(s.there, Effective(s.rightKey), Min(n, |s.there.wire|));
  }

  /** The keys are kept over a whole script if and only if everything was received in time. */
  lemma {:induction false} KeysKeptExactly(s: Link, script: seq<Action>, c: Cursor, d: Cursor)
    requires InStep(s.there, c) && InStep(s.back, d) && KeysKept(s)
    ensures KeysKept(Run(s, script)) <==> AllInTime(s, script)
  {
    hide InStep, KeysKept, InTime, Step;
    if script != [] {
      var n := |script| - 1;
      KeysKeptExactly(s, script[..n], c, d);
      RunKeepsStep(s, script[..n], c, d);
      StepKeepsKeys(Run(s, script[..n]), script[n], c, d);
    }
  }

  /** Any script of sends, receives and changes of key on both sides: if everything is received in
      time, what arrives is a prefix of what was sent, both ways. */
  lemma RekeyedScriptDelivers(leftKey: seq<Byte>, rightKey: seq<Byte>, c: Cursor, d: Cursor, script: seq<Action>)
    requires AllInTime(Start(leftKey, rightKey, c, d), script)
    ensures var s := Run(Start(leftKey, rightKey, c, d), script);
            s.there.got <= Texts(script, true) && s.back.got <= Texts(script, false)
  {
    hide Run, KeyByteAt, AllInTime;
    var s0 := Start(leftKey, rightKey, c, d);
    StartInStep(c);
    StartInStep(d);
    KeysKeptExactly(s0, script, c, d);
    RunDeliversExactly(leftKey, rightKey, c, d, script);
    KeysInStepDeliver(Run(s0, script).there, c, Texts(script, true));
    KeysInStepDeliver(Run(s0, script).back, d, Texts(script, false));
  }

  /** When a peer then takes all that is under way, it has the whole text. */
  lemma DrainedIsWhole(leftKey: seq<Byte>, rightKey: seq<Byte>, c: Cursor, d: Cursor, script: seq<Action>, n: nat)
    requires AllInTime(Start(leftKey, rightKey, c, d), script + [ReceiveChunk(false, n)])
    requires |Run(Start(leftKey, rightKey, c, d), script).there.wire| <= n
    ensures Run(Start(leftKey, rightKey, c, d), script + [ReceiveChunk(false, n)]).there.got == Texts(script, true)
  {
    hide Exact, AllInTime, Step;
    var s0, longer := Start(leftKey, rightKey, c, d), script + [ReceiveChunk(false, n)];
    assert longer[..|script|] == script;
    ReceiveTakes(Run(s0, script), n);
    RekeyedScriptDelivers(leftKey, rightKey, c, d, longer);
    RunDeliversExactly(leftKey, rightKey, c, d, longer);
    ExactSizes(Run(s0, longer).there, c, Texts(longer, true));
  }

  lemma ExactSizes(l: Lane, c: Cursor, text: seq<Byte>)
    requires Exact(l, c, text)
    ensures |l.got| + |l.wire| == |text|
  {}
}
