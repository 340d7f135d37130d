/**
 * A validated watch list bound to one identified image, and the assembler for
 * its frames. Clearing and installing both start a new generation.
 */
module WatchSessions {
  import opened Common
  import opened SnapshotAssembly
  import opened WatchLists

  /** The value of the session's fields; hash and serial are empty when nothing is installed. */
  datatype Watching = Watching(
    generation: nat, imageHash: string, serial: string, watch: Option<Watch>, assembly: Assembly)

  function TermsOf(serial: string, watch: Watch, timeout: real): Terms {
    Terms(serial, watch.count, watch.SnapshotSizes(), timeout)
  }

  function Cleared(w: Watching): Watching { Watching(w.generation + 1, "", "", None, EMPTY) }

  predicate ValidHash(hash: string) {
    |hash| == 32 && forall c | c in hash :: '0' <= c <= '9' || 'a' <= c <= 'f' || 'A' <= c <= 'F'
  }

  function LowerChar(c: char): char { if 'A' <= c <= 'Z' then c + 32 as char else c }

  function LowerCase(s: string): (r: string)
    ensures |r| == |s| && forall i | 0 <= i < |s| :: r[i] == LowerChar(s[i])
  {
    seq(|s|, i requires 0 <= i < |s| => LowerChar(s[i]))
  }

  predicate ValidSerial(serial: string) {
    1 <= |serial| <= 15 &&
    forall c | c in serial ::
      'A' <= c <= 'Z' || 'a' <= c <= 'z' || '0' <= c <= '9' || c == '_' || c == '.' || c == '-'
  }

  function Installed(w: Watching, imageHash: string, serial: string, watch: Watch): Watching {
    Watching(w.generation + 1, imageHash, serial, Some(watch), EMPTY)
  }

  /** The chunk served for a request, if this image is installed and the index exists. */
  function Served(w: Watching, imageHash: string, index: nat): Option<Bytes> {
    if w.watch.Some? && imageHash == w.imageHash && index < w.watch.value.Chunks()
    then Some(w.watch.value.Chunk(index)) else None
  }

  function Fed(w: Watching, timeout: real, p: Part, now: real): (r: (Watching, Option<Bytes>)) {
    if w.watch.None? then (w, None)
    else
      var (a, values) := FeedPart(TermsOf(w.serial, w.watch.value, timeout), w.assembly, p, now);
      (w.(assembly := a), values)
  }

  class WatchSession {
    const timeout: real
    var generation: nat
    var imageHash: string
    var serial: string
    var watch: Option<Watch>
    var assembler: SnapshotAssembler?

    ghost predicate Valid()
      reads this, assembler
    {
      && timeout > 0.0
      && (watch.Some? <==> assembler != null)
      && (assembler != null ==>
            assembler.Valid() && assembler.terms == TermsOf(serial, watch.value, timeout))
    }

    ghost function Model(): Watching
      reads this, assembler
    {
      Watching(generation, imageHash, serial, watch, if assembler == null then EMPTY else assembler.Model())
    }

    constructor (timeout: real)
      requires timeout > 0.0
      ensures Valid() && this.timeout == timeout && assembler == null
      ensures Model() == Watching(1, "", "", None, EMPTY)
    {
      this.timeout := timeout;
      generation, imageHash, serial, watch, assembler := 1, "", "", None, null;
    }

    method Clear()
      requires Valid()
      modifies this
      ensures Valid() && assembler == null && Model() == Cleared(old(Model()))
    {
      generation, imageHash, serial, watch, assembler := generation + 1, "", "", None, null;
    }

    method Install(hash: string, newSerial: string, list: Watch)
      requires Valid()
      modifies this
      ensures Valid() && fresh(assembler) && Model() == Installed(old(Model()), hash, newSerial, list)
    {
      var a := new SnapshotAssembler(TermsOf(newSerial, list, timeout));
      generation, imageHash, serial, watch, assembler := generation + 1, hash, newSerial, Some(list), a;
    }

    /** A whole file is validated before anything of the session changes; the hash is kept in lower case. */
    method InstallFile(hash: string, newSerial: string, data: Bytes) returns (installed: bool)
      requires Valid()
      modifies this
      ensures Valid()
      ensures installed <==> ValidHash(hash) && ValidSerial(newSerial) && Validated(data).Some?
      ensures Model() == if installed then Installed(old(Model()), LowerCase(hash), newSerial, Validated(data).value)
                         else old(Model())
    {
      hide Validated, ValidHash, ValidSerial;
      if !ValidHash(hash) || !ValidSerial(newSerial) { return false; }
      var list := Validate(data);
      if list.None? { return false; }
      Install(LowerCase(hash), newSerial, list.value);
      return true;
    }

    method Serve(hash: string, index: nat) returns (chunk: Option<Bytes>)
      requires Valid()
      ensures chunk == Served(Model(), hash, index)
    {
      chunk := None;
      if watch.Some? && hash == imageHash && index < watch.value.Chunks() {
        chunk := Some(watch.value.Chunk(index));
      }
    }

    method Feed(p: Part, now: real) returns (values: Option<Bytes>)
      requires Valid()
      modifies assembler
      ensures Valid() && (Model(), values) == Fed(old(Model()), timeout, p, now)
    {
      values := None;
      if assembler != null { values := assembler.Feed(p, now); }
    }
  }
}
