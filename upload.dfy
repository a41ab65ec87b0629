/**
 The upload pipeline of a POST: the fields merged into the file's record, and
 the session that appends the request body to the file's temporary file and
 answers once the temporary file is closed.
 */
module Upload {
  import opened Wrappers
  import opened Http

  newtype byte = x: int | 0 <= x < 256

  /**
   The result of `parseFloat` on the `progress` query parameter. It is kept
   apart from the integers of `Numbers.Num`, which `parseInt` gives, because
   progress is a fraction and may be infinite.
   */
  datatype Float = NotANumber | Finite(value: real) | Infinity | NegativeInfinity

  /** The `$set` document of the record update: `uploading` and, when given, `progress`. */
  datatype UpdateFields = UpdateFields(uploading: bool, progress: Option<real>)

  /** The progress stored for a client-reported value: only a number above 0, capped at 1. */
  function ClampedProgress(p: Float): (r: Option<real>)
    ensures r.Some? <==> (p.Finite? && p.value > 0.0) || p.Infinity?
    ensures r.Some? ==> 0.0 < r.value <= 1.0
    ensures p.Finite? && 0.0 < p.value <= 1.0 ==> r == Some(p.value)
    ensures (p.Finite? && p.value > 1.0) || p.Infinity? ==> r == Some(1.0)
  {
    match p
    case Finite(v) => if v > 0.0 then Some(if v < 1.0 then v else 1.0) else None
    case Infinity => Some(1.0)
    case _ => None
  }

  /** The fields of the record update a POST issues when its body has been received. */
  function Fields(p: Float): (f: UpdateFields)
    ensures f.uploading
    ensures f.progress.Some? ==> 0.0 < f.progress.value <= 1.0
    ensures f.progress.None? <==> !((p.Finite? && p.value > 0.0) || p.Infinity?)
  {
    UpdateFields(true, ClampedProgress(p))
  }

  /** `1.5` is stored as `1`, `0` is not stored, `0.25` is stored as it is. */
  lemma ProgressExamples()
    ensures Fields(Finite(1.5)).progress == Some(1.0)
    ensures Fields(Finite(0.0)).progress == None
    ensures Fields(Finite(0.25)).progress == Some(0.25)
  {
  }

  /** All chunks, one after the other. */
  function Flatten(chunks: seq<seq<byte>>): (s: seq<byte>)
  {
    if chunks == [] then [] else chunks[0] + Flatten(chunks[1..])
  }

  /** One more chunk lengthens the flattened content by that chunk. */
  lemma {:induction false} FlattenAppend(chunks: seq<seq<byte>>, c: seq<byte>)
    ensures Flatten(chunks + [c]) == Flatten(chunks) + c
    decreases |chunks|
  {
    if chunks == [] {
      assert [] + [c] == [c];
      assert [c][1..] == [];
    } else {
      assert (chunks + [c])[1..] == chunks[1..] + [c];
      FlattenAppend(chunks[1..], c);
    }
  }

  /** Where an upload session is in its event sequence. */
  datatype Phase =
    | Receiving      // the request body is arriving
    | Closing        // the request ended; the record was updated and the temporary file is being closed
    | Finished       // the temporary file signalled `finish`; 204 was sent
    | WriteFailed    // the temporary file signalled an error; it was deleted and 500 was sent
    | RequestFailed  // the request signalled an error; 500 was sent

  /** What a session does outside its temporary file, in the order it does it. */
  datatype Effect =
    | UpdateRecord(fileId: string, fields: UpdateFields)
    | CloseTemp
    | DeleteTemp
    | Respond(status: int, headers: Headers)

  /** The headers of the final 204. */
  const NoContentHeaders: Headers := map["Content-Type" := Text("text/plain")]

  /**
   One POST's upload: the temporary file opened in append mode, the chunks
   written in arrival order, and the responses given on the events of the
   request and of the temporary file.
   */
  class UploadSession {
    const fileId: string
    const fields: UpdateFields
    /** What the temporary file held when it was opened. */
    const existing: seq<byte>
    /** The content of the temporary file. */
    var temp: seq<byte>
    var tempExists: bool
    var phase: Phase
    /** The request's `end` event has been handled. */
    var ended: bool
    var effects: seq<Effect>
    /** The chunks the request has delivered so far. */
    ghost var received: seq<seq<byte>>

    ghost predicate Valid()
      reads this
    {
      && (phase != WriteFailed ==> tempExists)
      && (tempExists ==> temp == existing + Flatten(received))
      && (!tempExists ==> temp == [])
      && (phase == Receiving ==> !ended && effects == [])
      && (phase == Closing ==> ended && effects == [UpdateRecord(fileId, fields), CloseTemp])
      && (phase == Finished ==> ended && effects == [UpdateRecord(fileId, fields), CloseTemp, Respond(204, NoContentHeaders)])
      && (phase == WriteFailed ==>
            || (!ended && effects == [DeleteTemp, Respond(500, map[])])
            || (ended && effects == [UpdateRecord(fileId, fields), CloseTemp, DeleteTemp, Respond(500, map[])])
            || (ended && effects == [DeleteTemp, Respond(500, map[]), UpdateRecord(fileId, fields), CloseTemp]))
      && (phase == RequestFailed ==> !ended && effects == [Respond(500, map[])])
    }

    /**
     `fs.createWriteStream(tmpFile, {flags: 'a'})` on a temporary file that
     holds `existing` (empty when it does not exist yet), with the update fields
     built from the `progress` query parameter.
     */
    constructor (fileId: string, progress: Float, existing: seq<byte>)
      ensures Valid()
      ensures this.fileId == fileId && this.fields == Fields(progress) && this.existing == existing
      ensures phase == Receiving && !ended && temp == existing && tempExists && effects == [] && received == []
    {
      this.fileId := fileId;
      this.fields := Fields(progress);
      this.existing := existing;
      temp := existing;
      tempExists := true;
      phase := Receiving;
      ended := false;
      effects := [];
      received := [];
    }

    /** The request's `data` event: the chunk is written after everything written before. */
    method OnData(chunk: seq<byte>)
      requires Valid() && phase == Receiving
      modifies this
      ensures Valid() && phase == Receiving && !ended && effects == []
      ensures temp == old(temp) + chunk && tempExists
      ensures received == old(received) + [chunk]
    {
      FlattenAppend(received, chunk);
      temp := temp + chunk;
      received := received + [chunk];
    }

    /**
     The request's `end` event: the record update is issued, then the temporary
     file is closed. The handler does this even after the temporary file failed.
     */
    method OnEnd()
      requires Valid() && !ended && (phase == Receiving || phase == WriteFailed)
      modifies this
      ensures Valid() && ended
      ensures phase == (if old(phase) == Receiving then Closing else WriteFailed)
      ensures effects == old(effects) + [UpdateRecord(fileId, fields), CloseTemp]
      ensures temp == old(temp) && tempExists == old(tempExists) && received == old(received)
    {
      effects := effects + [UpdateRecord(fileId, fields), CloseTemp];
      ended := true;
      if phase == Receiving {
        phase := Closing;
      }
    }

    /** The temporary file's `finish` event, which only follows its closing: 204 with `Content-Type: text/plain`. */
    method OnFinish()
      requires Valid() && phase == Closing
      modifies this
      ensures Valid() && phase == Finished && ended
      ensures effects == old(effects) + [Respond(204, NoContentHeaders)]
      ensures temp == old(temp) && tempExists && received == old(received)
    {
      effects := effects + [Respond(204, NoContentHeaders)];
      phase := Finished;
    }

    /**
     The temporary file's `error` event: the file is unlinked, then 500 is sent.
     `unlinked` says whether the unlink succeeded; a failure is only logged and
     leaves the file as it was.
     */
    method OnWriteError(unlinked: bool)
      requires Valid() && (phase == Receiving || phase == Closing)
      modifies this
      ensures Valid() && phase == WriteFailed && ended == old(ended)
      ensures effects == old(effects) + [DeleteTemp, Respond(500, map[])]
      ensures unlinked ==> !tempExists && temp == []
      ensures !unlinked ==> tempExists && temp == old(temp)
      ensures received == old(received)
    {
      effects := effects + [DeleteTemp, Respond(500, map[])];
      if unlinked {
        temp := [];
        tempExists := false;
      }
      phase := WriteFailed;
    }

    /** The request's `error` event: 500 is sent and the temporary file is left as it is. */
    method OnRequestError()
      requires Valid() && phase == Receiving
      modifies this
      ensures Valid() && phase == RequestFailed && !ended
      ensures effects == [Respond(500, map[])]
      ensures temp == old(temp) && tempExists
    {
      effects := [Respond(500, map[])];
      phase := RequestFailed;
    }
  }

  /**
   A POST whose body arrives as `chunks` and whose temporary file held
   `existing`, run through its events `data`*, `end`, `finish`: the temporary
   file ends as the old content followed by the chunks in order, the record is
   updated before the file is closed, and 204 is the last thing done.
   */
  method RunUpload(fileId: string, progress: Float, existing: seq<byte>, chunks: seq<seq<byte>>)
    returns (content: seq<byte>, effects: seq<Effect>)
    ensures content == existing + Flatten(chunks)
    ensures effects == [UpdateRecord(fileId, Fields(progress)), CloseTemp, Respond(204, NoContentHeaders)]
  {
    var session := new UploadSession(fileId, progress, existing);
    var i := 0;
    while i < |chunks|
      invariant 0 <= i <= |chunks|
      invariant session.Valid() && session.phase == Receiving
      invariant session.fileId == fileId && session.fields == Fields(progress) && session.existing == existing
      invariant session.received == chunks[..i]
    {
      session.OnData(chunks[i]);
      assert chunks[..i + 1] == chunks[..i] + [chunks[i]];
      i := i + 1;
    }
    assert chunks[..i] == chunks;
    session.OnEnd();
    session.OnFinish();
    content, effects := session.temp, session.effects;
  }

  /**
   A POST whose temporary file fails before any chunk is written, as when it
   cannot be opened: 500 is sent at once, and the request's `end` still updates
   the record and closes the failed file.
   */
  method RunFailedUpload(fileId: string, progress: Float, existing: seq<byte>, unlinked: bool)
    returns (effects: seq<Effect>, tempLeft: bool)
    ensures effects == [DeleteTemp, Respond(500, map[]), UpdateRecord(fileId, Fields(progress)), CloseTemp]
    ensures tempLeft == !unlinked
  {
    var session := new UploadSession(fileId, progress, existing);
    session.OnWriteError(unlinked);
    session.OnEnd();
    effects, tempLeft := session.effects, session.tempExists;
  }

  /** Two POSTs to the same file: the second appends its chunks after those of the first. */
  method RunTwoUploads(fileId: string, existing: seq<byte>, first: seq<seq<byte>>, second: seq<seq<byte>>)
    returns (content: seq<byte>)
    ensures content == existing + Flatten(first) + Flatten(second)
  {
    var afterFirst, _ := RunUpload(fileId, NotANumber, existing, first);
    var afterSecond, _ := RunUpload(fileId, NotANumber, afterFirst, second);
    content := afterSecond;
  }
}
