/** The bytes that are signed with a chat message (secure_chat.rs), at their offsets. */
module ChatWire {
  import opened Wrappers
  import opened Bytes
  import opened SecureChat
  import opened WireForm

  ghost predicate IsHead(c: SigningContext, b: seq<byte>)
    requires |b| >= 56
  {
    && IsBigEndian(c.chainVersion, b[0..4])
    && b[4..20] == c.sender && b[20..36] == c.session
    && IsBigEndian(c.messageIndex, b[36..40])
    && IsBigEndian(c.salt, b[40..48])
    && exists q: i64 :: WholeSeconds(c.timestampMillis, q) && IsBigEndian(q, b[48..56])
  }

  /**
    Chain version, sender, session, index, salt and time, in 56 bytes; then the length of the message
    and the message, and the length of the last-seen list and its signatures. Numbers are big-endian
    two's complement, and the time is in whole seconds.
   */
  ghost predicate IsSigningInput(c: SigningContext, b: seq<byte>) {
    var m, n := |c.message|, |c.lastSeen|;
    && m <= I32_MAX && n <= I32_MAX && |b| == 64 + m + 256 * n
    && IsHead(c, b)
    && IsBigEndian(m, b[56..60]) && b[60..60 + m] == c.message
    && IsBigEndian(n, b[60 + m..64 + m])
    && forall i :: 0 <= i < n ==> b[64 + m + 256 * i..320 + m + 256 * i] == c.lastSeen[i]
  }

  lemma Int32Form(value: i32, b: seq<byte>)
    requires |b| == 4
    ensures IsBigEndian(value, b) <==> b == Int32Bytes(value)
  {
    Pow256Values();
    BigEndianForm(value, Wrap(value, 4), b);
  }

  lemma Int64Form(value: i64, b: seq<byte>)
    requires |b| == 8
    ensures IsBigEndian(value, b) <==> b == Int64Bytes(value)
  {
    Pow256Values();
    BigEndianForm(value, Wrap(value, 8), b);
  }

  lemma {:induction false} JoinedForm(signatures: seq<Signature>, b: seq<byte>)
    ensures b == Joined(signatures)
       <==> |b| == 256 * |signatures|
            && forall i :: 0 <= i < |signatures| ==> b[256 * i..256 * i + 256] == signatures[i]
  {
    if signatures != [] && |b| >= 256 {
      var tail := b[256..];
      JoinedForm(signatures[1..], tail);
      assert forall i :: 1 <= i < |signatures| && 256 * i + 256 <= |b| ==>
        b[256 * i..256 * i + 256] == tail[256 * (i - 1)..256 * (i - 1) + 256];
      assert b == b[0..256] + tail;
    } else {
      JoinedLength(signatures);
    }
  }

  lemma {:induction false} JoinedLength(signatures: seq<Signature>)
    ensures |Joined(signatures)| == 256 * |signatures|
  {
    if signatures != [] { JoinedLength(signatures[1..]); }
  }

  lemma HeadParts(b: seq<byte>, version: seq<byte>, sender: seq<byte>, session: seq<byte>, index: seq<byte>,
      salt: seq<byte>, time: seq<byte>, rest: seq<byte>)
    requires |version| == 4 && |sender| == 16 && |session| == 16 && |index| == 4 && |salt| == 8 && |time| == 8
    ensures b == version + (sender + (session + (index + (salt + (time + rest)))))
       <==> && |b| >= 56 && b[0..4] == version && b[4..20] == sender && b[20..36] == session
            && b[36..40] == index && b[40..48] == salt && b[48..56] == time && b[56..] == rest
  {
    if |b| >= 56 {
      assert b == b[0..4] + (b[4..20] + (b[20..36] + (b[36..40] + (b[40..48] + (b[48..56] + b[56..])))));
    }
    var whole := version + (sender + (session + (index + (salt + (time + rest)))));
    assert whole[4..20] == sender && whole[20..36] == session && whole[36..40] == index;
    assert whole[40..48] == salt && whole[48..56] == time && whole[56..] == rest;
  }

  lemma TailParts(b: seq<byte>, length: seq<byte>, message: seq<byte>, count: seq<byte>, rest: seq<byte>)
    requires |length| == 4 && |count| == 4
    ensures b == length + (message + (count + rest))
       <==> && |b| >= 8 + |message| && b[0..4] == length && b[4..4 + |message|] == message
            && b[4 + |message|..8 + |message|] == count && b[8 + |message|..] == rest
  {
    var m := |message|;
    if |b| >= 8 + m { assert b == b[0..4] + (b[4..4 + m] + (b[4 + m..8 + m] + b[8 + m..])); }
    var whole := length + (message + (count + rest));
    assert whole[4..4 + m] == message && whole[4 + m..8 + m] == count && whole[8 + m..] == rest;
  }

  predicate IsTail(c: SigningContext, t: seq<byte>) {
    var m, n := |c.message|, |c.lastSeen|;
    && |t| == 8 + m + 256 * n
    && IsBigEndian(m, t[0..4]) && t[4..4 + m] == c.message
    && IsBigEndian(n, t[4 + m..8 + m])
    && forall i :: 0 <= i < n ==> t[8 + m + 256 * i..264 + m + 256 * i] == c.lastSeen[i]
  }

  lemma TailForm(c: SigningContext, t: seq<byte>)
    requires |c.message| <= I32_MAX && |c.lastSeen| <= I32_MAX
    ensures t == MessageBytes(c) <==> IsTail(c, t)
  {
    var m, n := |c.message|, |c.lastSeen|;
    TailParts(t, Int32Bytes(m), c.message, Int32Bytes(n), Joined(c.lastSeen));
    if |t| >= 8 + m {
      Int32Form(m, t[0..4]);
      Int32Form(n, t[4 + m..8 + m]);
      SignaturesForm(c, t, t[8 + m..]);
    }
  }

  lemma SignaturesForm(c: SigningContext, t: seq<byte>, s: seq<byte>)
    requires |t| >= 8 + |c.message| && s == t[8 + |c.message|..]
    ensures var m, n := |c.message|, |c.lastSeen|;
      s == Joined(c.lastSeen)
      <==> |t| == 8 + m + 256 * n
           && forall i :: 0 <= i < n ==> t[8 + m + 256 * i..264 + m + 256 * i] == c.lastSeen[i]
  {
    var m, n := |c.message|, |c.lastSeen|;
    JoinedForm(c.lastSeen, s);
    if |s| == 256 * n {
      forall i | 0 <= i < n ensures s[256 * i..256 * i + 256] == t[8 + m + 256 * i..264 + m + 256 * i] { }
    }
  }

  lemma HeadForm(c: SigningContext, b: seq<byte>)
    requires SigningInput(c).Success?
    ensures SigningInput(c).value == b <==> |b| >= 56 && IsHead(c, b) && b[56..] == MessageBytes(c)
  {
    HeadParts(b, Int32Bytes(c.chainVersion), c.sender, c.session, Int32Bytes(c.messageIndex), Int64Bytes(c.salt),
      Int64Bytes(Seconds(c.timestampMillis)), MessageBytes(c));
    if |b| >= 56 {
      Int32Form(c.chainVersion, b[0..4]);
      Int32Form(c.messageIndex, b[36..40]);
      Int64Form(c.salt, b[40..48]);
      SecondsForm(c, b);
    }
  }

  /** What is signed is exactly the form above, and the range error takes what has none. */
  lemma SigningInputForm(c: SigningContext, b: seq<byte>)
    ensures SigningInput(c) == Success(b) <==> IsSigningInput(c, b)
    ensures SigningInput(c).Failure? <==> |c.message| > I32_MAX || |c.lastSeen| > I32_MAX
  {
    if SigningInput(c).Success? {
      HeadForm(c, b);
      if |b| >= 56 {
        TailForm(c, b[56..]);
        TailOffsets(c, b);
      }
    }
  }

  lemma SecondsForm(c: SigningContext, b: seq<byte>)
    requires |b| >= 56
    ensures b[48..56] == Int64Bytes(Seconds(c.timestampMillis))
       <==> exists q: i64 :: WholeSeconds(c.timestampMillis, q) && IsBigEndian(q, b[48..56])
  {
    var q := Seconds(c.timestampMillis);
    Int64Form(q, b[48..56]);
    SecondsAreWhole(c.timestampMillis, q);
    if other: i64 :| WholeSeconds(c.timestampMillis, other) && IsBigEndian(other, b[48..56]) {
      SecondsAreWhole(c.timestampMillis, other);
    }
  }

  lemma TailOffsets(c: SigningContext, b: seq<byte>)
    requires |b| >= 56
    ensures var m, n := |c.message|, |c.lastSeen|;
      IsTail(c, b[56..])
      <==> && |b| == 64 + m + 256 * n
           && IsBigEndian(m, b[56..60]) && b[60..60 + m] == c.message
           && IsBigEndian(n, b[60 + m..64 + m])
           && forall i :: 0 <= i < n ==> b[64 + m + 256 * i..320 + m + 256 * i] == c.lastSeen[i]
  {
    var m, n, t := |c.message|, |c.lastSeen|, b[56..];
    if |b| == 64 + m + 256 * n {
      assert t[0..4] == b[56..60] && t[4..4 + m] == b[60..60 + m] && t[4 + m..8 + m] == b[60 + m..64 + m];
      forall i | 0 <= i < n
        ensures t[8 + m + 256 * i..264 + m + 256 * i] == b[64 + m + 256 * i..320 + m + 256 * i]
      {
      }
    }
  }
}
