/** Sending an encoded configuration: frames of at most 62 bytes, each after the command and its offset. */
module ConfigFrames {
  import opened Domain
  import opened Bytes
  import opened Config
  import opened ConfigCodec
  import opened Spi

  const CONFIG_WRITE_PAYLOAD: nat := 62
  const WRITE_CONFIG: byte := 6

  function FrameStart(k: nat): nat {
    CONFIG_WRITE_PAYLOAD * k
  }

  /** A device that stores each frame's payload at the frame's offset. */
  function Stored(memory: seq<byte>, frames: seq<seq<byte>>): (after: seq<byte>)
    ensures |after| == |memory|
  {
    if frames == [] then memory
    else
      var before := Stored(memory, frames[..|frames| - 1]);
      var frame := frames[|frames| - 1];
      if |frame| >= 2 && frame[1] + |frame| - 2 <= |before| then Patched(before, frame[1], frame[2..]) else before
  }

  /** Whatever a device of the right size held, the frames replace its first `sent` bytes, and only those. */
  ghost predicate StorePrefix(frames: seq<seq<byte>>, bytes: seq<byte>, sent: nat) {
    && sent <= |bytes|
    && forall memory: seq<byte> :: |memory| == |bytes| ==> Stored(memory, frames) == bytes[..sent] + memory[sent..]
  }

  lemma FrameStored(frames: seq<seq<byte>>, bytes: seq<byte>, sent: nat, payload: seq<byte>)
    requires StorePrefix(frames, bytes, sent) && sent < 256 && sent + |payload| <= |bytes|
    requires payload == bytes[sent..sent + |payload|]
    ensures StorePrefix(frames + [[WRITE_CONFIG, sent] + payload], bytes, sent + |payload|)
  {
    hide Stored;
    var frame := [WRITE_CONFIG, sent] + payload;
    forall memory: seq<byte> | |memory| == |bytes|
      ensures Stored(memory, frames + [frame]) == bytes[..sent + |payload|] + memory[sent + |payload|..]
    {
      FrameStoredIn(memory, frames, frame, bytes, sent, payload);
    }
  }

  lemma FrameStoredIn(memory: seq<byte>, frames: seq<seq<byte>>, frame: seq<byte>, bytes: seq<byte>, sent: nat,
                      payload: seq<byte>)
    requires |memory| == |bytes| && sent + |payload| <= |bytes| && sent < 256
    requires payload == bytes[sent..sent + |payload|] && frame == [WRITE_CONFIG, sent] + payload
    requires Stored(memory, frames) == bytes[..sent] + memory[sent..]
    ensures Stored(memory, frames + [frame]) == bytes[..sent + |payload|] + memory[sent + |payload|..]
  {
    assert (frames + [frame])[..|frames|] == frames && frame[2..] == payload;
    var before := Stored(memory, frames);
    assert Stored(memory, frames + [frame]) == Patched(before, sent, payload);
    hide Stored;
  }

  /** A frame carries the command, and a payload of allowed size. */
  predicate WellFormed(frame: seq<byte>) {
    2 < |frame| <= 2 + CONFIG_WRITE_PAYLOAD && frame[0] == WRITE_CONFIG
  }

  /** The frames of `bytes`, in order. The offset byte would overflow only beyond five frames. */
  method Frames(bytes: seq<byte>) returns (result: Result<seq<seq<byte>>>)
    ensures result.Ok? <==> |bytes| <= 5 * CONFIG_WRITE_PAYLOAD
    ensures result.Err? ==> result.error == Transport
    ensures result.Ok? ==>
      (forall k :: 0 <= k < |result.value| ==> WellFormed(result.value[k])) && StorePrefix(result.value, bytes, |bytes|)
  {
    hide StorePrefix;
    var frames: seq<seq<byte>> := [];
    var sent := 0;
    NothingStored(bytes);
    while sent < |bytes|
      invariant sent == Min(FrameStart(|frames|), |bytes|) && |frames| <= 5
      invariant forall k :: 0 <= k < |frames| ==> WellFormed(frames[k])
      invariant StorePrefix(frames, bytes, sent)
    {
      var payload := bytes[sent..Min(sent + CONFIG_WRITE_PAYLOAD, |bytes|)];
      if FrameStart(|frames|) > 255 {
        return Err(Transport);
      }
      FrameStored(frames, bytes, sent, payload);
      frames := frames + [[WRITE_CONFIG, FrameStart(|frames|)] + payload];
      sent := sent + |payload|;
    }
    return Ok(frames);
  }

  lemma NothingStored(bytes: seq<byte>)
    ensures StorePrefix([], bytes, 0)
  {
  }

  /** Every valid configuration is sent in one or two frames, and stored whole. */
  lemma ConfigurationFits(c: DeviceConfiguration)
    requires c.rawVersion <= 2
    ensures CONFIG_WRITE_PAYLOAD < |Encoded(c)| <= 2 * CONFIG_WRITE_PAYLOAD
  {
  }
}
