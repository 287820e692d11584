/**
 * ota_service.c: an image arrives in chunks of any size; its first bytes are held back until
 * the version policy has accepted them, and the boot slot is switched at the very end.
 */
module Ota {
  import opened Bytes
  import opened OtaVersion

  /** The image header, the segment header and the application descriptor. */
  const PREFIX := 24 + 8 + 256

  datatype Error =
    | NoError
    | InvalidArg
    | PendingVerify
    | Busy
    | NoMemory
    | ImageSize
    | HashFailure
    | BadDescriptor
    | Policy(decision: Decision)
    | FlashFailure
    | HashMismatch

  /** How a write to the partition ends; a failing one may have written some bytes. */
  datatype FlashWrite = Written | Broken(done: nat)

  /** What goes wrong during one call of gateway_ota_write. */
  datatype WriteEnv = WriteEnv(hashing: bool, begin: bool, prefixWrite: FlashWrite, restWrite: FlashWrite)

  datatype FinishEnv = FinishEnv(hashing: bool, end: bool, descriptor: bool, boot: bool)

  /** What an upload is checked against: the descriptor reader, the running image, and the digest function. */
  datatype Target = Target(
    describe: seq<byte> -> Option<Image>,
    project: CString,
    running: Image,
    overrides: Overrides,
    digest: seq<byte> -> seq<byte>,
    expectedSize: nat,
    expectedDigest: seq<byte>)

  /** The policy accepts an image that begins like this. */
  predicate Accepted(t: Target, prefix: seq<byte>) {
    t.describe(prefix).Some? && MayInstall(t.project, t.running, t.describe(prefix).value, t.overrides)
  }

  /** Short of a full prefix there is nothing to object to. */
  predicate Passes(t: Target, image: seq<byte>) {
    |image| >= PREFIX ==> Accepted(t, image[..PREFIX])
  }

  /** Nothing goes wrong. */
  const CALM := WriteEnv(true, true, Written, Written)
  const FINISHED := FinishEnv(true, true, true, true)

  function Landed(flash: seq<byte>, data: seq<byte>, w: FlashWrite): seq<byte> {
    if w.Written? then flash + data else flash + data[..if w.done < |data| then w.done else |data|]
  }

  class Session {
    const target: Target
    const prefix: array<byte>
    var prefixLen: nat
    var received: nat
    var otaStarted: bool
    /** The digest operation, as the bytes it was given; the partition; the boot slot. */
    var hashed: seq<byte>
    var flash: seq<byte>
    var booted: bool

    /** A session none of whose writes failed: everything received is hashed and, past the prefix, in flash. */
    ghost predicate Valid()
      reads this, prefix
    {
      && prefix.Length == PREFIX <= target.expectedSize && received == |hashed| <= target.expectedSize
      && prefixLen == (if received < PREFIX then received else PREFIX) && prefix[..prefixLen] == hashed[..prefixLen]
      && otaStarted == (received >= PREFIX) && flash == (if otaStarted then hashed else [])
      && (otaStarted ==> Accepted(target, hashed[..PREFIX]))
    }

    /** The session of an image whose size was checked. */
    constructor (t: Target)
      requires t.expectedSize >= PREFIX
      ensures Valid() && target == t && hashed == [] && flash == [] && !booted && fresh(prefix)
    {
      target := t;
      prefix := new byte[PREFIX](_ => 0);
      prefixLen, received, otaStarted := 0, 0, false;
      hashed, flash, booted := [], [], false;
    }

    /** gateway_ota_write. After a failure the session is not used again. */
    method Write(data: seq<byte>, env: WriteEnv) returns (err: Error)
      requires Valid()
      modifies this, prefix
      ensures booted == old(booted)
      ensures err == NoError ==> Valid() && hashed == old(hashed) + data
      ensures old(flash) <= flash <= old(hashed) + data
      ensures flash != [] ==> |old(hashed) + data| >= PREFIX && Accepted(target, (old(hashed) + data)[..PREFIX])
      ensures env == CALM && 0 < |data| <= target.expectedSize - |old(hashed)| && Passes(target, old(hashed) + data) ==> err == NoError
      ensures data == [] ==> err == InvalidArg
      ensures |data| > target.expectedSize - |old(hashed)| ==> err == ImageSize
    {
      hide Accepted;
      PrefixKept(hashed, data);
      if |data| == 0 {
        return InvalidArg;
      }
      if received > target.expectedSize || |data| > target.expectedSize - received {
        return ImageSize;
      }
      if !env.hashing {
        return HashFailure;
      }
      hashed := hashed + data;
      var consumed := 0;
      if !otaStarted {
        consumed, err := HoldPrefix(data, env, old(hashed));
        if err != NoError {
          return;
        }
      }
      if otaStarted && consumed < |data| {
        ghost var n := |flash|;
        assert flash == hashed[..n] && data[consumed..] == hashed[n..];
        LandedPrefix(hashed, n, env.restWrite);
        flash := Landed(flash, data[consumed..], env.restWrite);
        if env.restWrite.Broken? {
          return FlashFailure;
        }
      }
      received := received + |data|;
      return NoError;
    }

    /** The first bytes are only kept; when they are complete the policy decides. */
    method HoldPrefix(data: seq<byte>, env: WriteEnv, ghost before: seq<byte>) returns (consumed: nat, err: Error)
      requires prefix.Length == PREFIX && !otaStarted && flash == [] && |data| > 0 && hashed == before + data
      requires prefixLen == |before| < PREFIX && prefix[..prefixLen] == before
      modifies this`prefixLen, this`flash, this`otaStarted, prefix
      ensures consumed == (if |data| < PREFIX - |before| then |data| else PREFIX - |before|)
      ensures prefixLen == |before| + consumed && prefix[..prefixLen] == hashed[..prefixLen]
      ensures prefixLen < PREFIX ==> err == NoError && flash == [] && !otaStarted
      ensures err == NoError && prefixLen == PREFIX ==> otaStarted && flash == hashed[..PREFIX]
      ensures otaStarted ==> prefixLen == PREFIX && Accepted(target, hashed[..PREFIX])
      ensures env == CALM && Passes(target, hashed) ==> err == NoError
      ensures flash != [] ==> otaStarted && flash <= hashed[..PREFIX]
    {
      hide Accepted;
      var need := PREFIX - prefixLen;
      consumed := if |data| < need then |data| else need;
      CopyIn(data, consumed);
      prefixLen := prefixLen + consumed;
      assert before + data[..consumed] == hashed[..prefixLen];
      if prefixLen == PREFIX {
        assert prefix[..] == prefix[..PREFIX];
        err := ValidatePrefixAndStart(env);
      } else {
        err := NoError;
      }
    }

    /** memcpy behind the part of the prefix that is there. */
    method CopyIn(data: seq<byte>, copy: nat)
      requires prefixLen <= prefix.Length && copy <= |data| && prefixLen + copy <= prefix.Length
      modifies prefix
      ensures prefix[..prefixLen + copy] == old(prefix[..prefixLen]) + data[..copy]
    {
      for i := 0 to copy
        invariant prefix[..prefixLen] == old(prefix[..prefixLen])
        invariant forall j :: 0 <= j < i ==> prefix[prefixLen + j] == data[j]
      {
        prefix[prefixLen + i] := data[i];
      }
    }

    /** validate_prefix_and_start: nothing reaches the flash unless the policy accepts. */
    method ValidatePrefixAndStart(env: WriteEnv) returns (err: Error)
      requires prefix.Length == PREFIX && !otaStarted && flash == []
      modifies this`flash, this`otaStarted
      ensures err == NoError ==> otaStarted && flash == prefix[..]
      ensures otaStarted ==> Accepted(target, prefix[..])
      ensures flash != [] ==> otaStarted && flash <= prefix[..]
      ensures env == CALM && Accepted(target, prefix[..]) ==> err == NoError
      ensures !Accepted(target, prefix[..]) ==> err != NoError && flash == [] && !otaStarted
    {
      hide MayInstall, Landed;
      LandedWhole(prefix[..], env.prefixWrite);
      var candidate := target.describe(prefix[..]);
      if candidate.None? {
        return BadDescriptor;
      }
      var decision := Decide(target.project, target.running, candidate.value, target.overrides);
      if decision != Accept {
        return Policy(decision);
      }
      if !env.begin {
        return FlashFailure;
      }
      otaStarted := true;
      flash := Landed(flash, prefix[..], env.prefixWrite);
      if env.prefixWrite.Broken? {
        return FlashFailure;
      }
      return NoError;
    }

    ghost predicate Complete()
      reads this
    {
      received == target.expectedSize && target.digest(hashed) == target.expectedDigest
    }

    /** gateway_ota_finish: the boot slot is switched only to a complete image with the right digest. */
    method Finish(env: FinishEnv) returns (err: Error)
      requires Valid()
      modifies this`booted
      ensures !old(booted) && booted ==> |flash| == target.expectedSize && flash == hashed
      ensures !old(booted) && booted ==> target.digest(hashed) == target.expectedDigest && Accepted(target, hashed[..PREFIX])
      ensures err == NoError ==> booted
      ensures err == NoError <==> Complete() && env == FINISHED
    {
      hide Accepted;
      if received != target.expectedSize || !otaStarted {
        return ImageSize;
      }
      if !env.hashing {
        return HashFailure;
      }
      if target.digest(hashed) != target.expectedDigest {
        return HashMismatch;
      }
      if !env.end || !env.descriptor || !env.boot {
        return FlashFailure;
      }
      booted := true;
      return NoError;
    }

    /** An upload in chunks, abandoned at the first failing one, as the HTTP handler drives it. */
    method Upload(chunks: seq<seq<byte>>, env: nat -> WriteEnv, finish: FinishEnv) returns (ok: bool)
      requires Valid() && hashed == [] && !booted
      modifies this, prefix
      ensures flash <= Joined(chunks)
      ensures flash != [] ==> |Joined(chunks)| >= 288 && Accepted(target, Joined(chunks)[..288])
      ensures booted ==> flash == Joined(chunks) && |flash| == target.expectedSize >= 288
      ensures booted ==> target.digest(flash) == target.expectedDigest && Accepted(target, flash[..288])
      ensures ok ==> booted
      ensures (forall i :: env(i) == CALM) && finish == FINISHED && Installable(target, chunks) ==> ok
    {
      hide Accepted;
      for i := 0 to |chunks|
        invariant Valid() && !booted && hashed == Joined(chunks[..i])
      {
        JoinedSnoc(chunks, i);
        JoinedPrefix(chunks, i + 1);
        PassesSoFar(target, Joined(chunks[..i + 1]), Joined(chunks));
        var err := Write(chunks[i], env(i));
        if err != NoError {
          PrefixOfPrefix(flash, Joined(chunks[..i + 1]), Joined(chunks));
          return false;
        }
      }
      assert chunks[..|chunks|] == chunks;
      var err := Finish(finish);
      return err == NoError;
    }
  }

  /** What gateway_ota_begin finds besides the request. */
  datatype BeginEnv = BeginEnv(digestText: bool, pendingVerify: bool, partitionSize: nat, busy: bool, memory: bool, hashing: bool)

  /** gateway_ota_begin: a session only for a plausible image, while no other update is going on or unconfirmed. */
  method Begin(t: Target, env: BeginEnv) returns (err: Error, session: Session?)
    ensures (session != null) <==> err == NoError
    ensures session != null ==> fresh(session) && session.Valid() && session.target == t && session.hashed == [] && !session.booted
    ensures err == ImageSize ==> !(PREFIX <= t.expectedSize <= env.partitionSize)
    ensures err == NoError <==> env.digestText && !env.pendingVerify && PREFIX <= t.expectedSize <= env.partitionSize
                                  && !env.busy && env.memory && env.hashing
  {
    session := null;
    if !env.digestText {
      return InvalidArg, null;
    }
    if env.pendingVerify {
      return PendingVerify, null;
    }
    if t.expectedSize < PREFIX || t.expectedSize > env.partitionSize {
      return ImageSize, null;
    }
    if env.busy {
      return Busy, null;
    }
    if !env.memory {
      return NoMemory, null;
    }
    if !env.hashing {
      return HashFailure, null;
    }
    session := new Session(t);
    return NoError, session;
  }

  /** Chunks that make up the announced image, which the policy accepts. */
  ghost predicate Installable(t: Target, chunks: seq<seq<byte>>) {
    && (forall i :: 0 <= i < |chunks| ==> chunks[i] != [])
    && |Joined(chunks)| == t.expectedSize >= PREFIX && t.digest(Joined(chunks)) == t.expectedDigest
    && Accepted(t, Joined(chunks)[..PREFIX])
  }

  function Joined(chunks: seq<seq<byte>>): seq<byte> {
    if chunks == [] then [] else Joined(chunks[..|chunks| - 1]) + chunks[|chunks| - 1]
  }

  lemma JoinedSnoc(chunks: seq<seq<byte>>, i: nat)
    requires i < |chunks|
    ensures Joined(chunks[..i + 1]) == Joined(chunks[..i]) + chunks[i]
  {
    assert chunks[..i + 1][..i] == chunks[..i];
  }

  lemma {:induction false} JoinedPrefix(chunks: seq<seq<byte>>, i: nat)
    requires i <= |chunks|
    ensures Joined(chunks[..i]) <= Joined(chunks)
    decreases |chunks| - i
  {
    if i == |chunks| {
      assert chunks[..i] == chunks;
    } else {
      JoinedSnoc(chunks, i);
      JoinedPrefix(chunks, i + 1);
    }
  }

  lemma PassesSoFar(t: Target, a: seq<byte>, b: seq<byte>)
    requires a <= b
    ensures Passes(t, b) ==> Passes(t, a)
  {
    hide Accepted;
    if |a| >= PREFIX { assert a[..PREFIX] == b[..PREFIX]; }
  }

  lemma PrefixOfPrefix(a: seq<byte>, b: seq<byte>, c: seq<byte>)
    requires a <= b <= c
    ensures a <= c && (|b| >= PREFIX ==> |c| >= PREFIX && b[..PREFIX] == c[..PREFIX])
  {
  }

  lemma PrefixKept(a: seq<byte>, b: seq<byte>)
    ensures a <= a + b && (|a| >= PREFIX ==> (a + b)[..PREFIX] == a[..PREFIX])
  {
  }

  lemma LandedWhole(data: seq<byte>, w: FlashWrite)
    ensures Landed([], data, w) <= data && (w.Written? ==> Landed([], data, w) == data)
  {
  }

  lemma LandedPrefix(whole: seq<byte>, n: nat, w: FlashWrite)
    requires n <= |whole|
    ensures Landed(whole[..n], whole[n..], w) <= whole
  {
  }
}
