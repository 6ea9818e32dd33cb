/** The same link with two `NDCrypt` objects at its ends: a script run on them does what the model
    of the link says. */
module CryptRuns {
  import opened ByteOrder
  import opened Crypt
  import opened CryptLink

  /** The objects, what is under way each way, and what they have received. */
  class Peers {
    const left: NDCrypt
    const right: NDCrypt
    var there: seq<Byte>
    var back: seq<Byte>
    var leftGot: seq<Byte>
    var rightGot: seq<Byte>

    constructor (leftKey: seq<Byte>, rightKey: seq<Byte>)
      ensures fresh(left) && fresh(right) && left != right
      ensures Shows(Start(leftKey, rightKey, Cursor(0, 0), Cursor(0, 0)))
    {
      left := new NDCrypt();
      right := new NDCrypt();
      there, back, leftGot, rightGot := [], [], [], [];
      new;
      left.SetKey(leftKey);
      right.SetKey(rightKey);
    }

    /** The objects are in the state that the link says. */
    ghost predicate Shows(s: Link)
      reads this, left, right
    {
      && left.key == s.leftKey && right.key == s.rightKey
      && left.Sender() == s.there.sender && right.Receiver() == s.there.receiver
      && right.Sender() == s.back.sender && left.Receiver() == s.back.receiver
      && there == s.there.wire && back == s.back.wire
      && rightGot == s.there.got && leftGot == s.back.got
    }

    method Step(a: Action, ghost s: Link)
      requires Shows(s) && left != right
      modifies this, left, right
      ensures Shows(CryptLink.Step(s, a))
    {
      hide Encrypted, Decrypted, After, DefaultKey;
      match a
      case SetKey(true, key) => left.SetKey(key);
      case SetKey(false, key) => right.SetKey(key);
      case SendChunk(true, text) =>
        var x := SendBy(left, text);
        there := there + x;
      case SendChunk(false, text) =>
        var x := SendBy(right, text);
        back := back + x;
      case ReceiveChunk(true, count) =>
        var n := Min(count, |back|);
        var t := ReceiveBy(left, back[..n]);
        back, leftGot := back[n..], leftGot + t;
      case ReceiveChunk(false, count) =>
        var n := Min(count, |there|);
        var t := ReceiveBy(right, there[..n]);
        there, rightGot := there[n..], rightGot + t;
    }

    /** Runs a script, from any state of the link on. */
    method Run(script: seq<Action>, ghost s: Link)
      requires Shows(s) && left != right
      modifies this, left, right
      ensures Shows(CryptLink.Run(s, script))
    {
      hide CryptLink.Step;
      for i := 0 to |script|
        invariant Shows(CryptLink.Run(s, script[..i]))
      {
        assert script[..i + 1][..i] == script[..i];
        Step(script[i], CryptLink.Run(s, script[..i]));
      }
      assert script[..|script|] == script;
    }
  }

  /** The text goes through a buffer, in place. */
  method SendBy(peer: NDCrypt, text: seq<Byte>) returns (x: seq<Byte>)
    modifies peer
    ensures peer.key == Effective(old(peer.key))
    ensures var keys := Repeat(peer.key, |text|);
            x == Encrypted(old(peer.Sender()), text, keys) && peer.Sender() == After(old(peer.Sender()), x, keys)
    ensures peer.Receiver() == old(peer.Receiver())
  {
    hide Encrypted, After, DefaultKey;
    var data := new Byte[|text|](i requires 0 <= i < |text| => text[i]);
    assert data[..|text|] == text;
    peer.EncryptSend(data, |text|);
    x := data[..|text|];
  }

  method ReceiveBy(peer: NDCrypt, x: seq<Byte>) returns (t: seq<Byte>)
    modifies peer
    ensures peer.key == Effective(old(peer.key))
    ensures var keys := Repeat(peer.key, |x|);
            t == Decrypted(old(peer.Receiver()), x, keys) && peer.Receiver() == After(old(peer.Receiver()), x, keys)
    ensures peer.Sender() == old(peer.Sender())
  {
    hide Decrypted, After, DefaultKey;
    var data := new Byte[|x|](i requires 0 <= i < |x| => x[i]);
    assert data[..|x|] == x;
    peer.DecryptRecv(data, |x|);
    t := data[..|x|];
  }

  /** Two new objects and any script in which everything is received in time: both ends get a prefix
      of what the other sent. */
  method Talk(leftKey: seq<Byte>, rightKey: seq<Byte>, script: seq<Action>) returns (peers: Peers)
    requires AllInTime(Start(leftKey, rightKey, Cursor(0, 0), Cursor(0, 0)), script)
    ensures peers.rightGot <= Texts(script, true) && peers.leftGot <= Texts(script, false)
  {
    hide AllInTime, CryptLink.Run;
    peers := new Peers(leftKey, rightKey);
    peers.Run(script, Start(leftKey, rightKey, Cursor(0, 0), Cursor(0, 0)));
    RekeyedScriptDelivers(leftKey, rightKey, Cursor(0, 0), Cursor(0, 0), script);
  }
}
