/** The log file as the writer and scanner see it: its bytes, and how many of
    them have been synchronized.  Failures of the device are parameters. */
module WalDisk {
  import opened Core

  datatype File = File(content: seq<byte>, synced: nat)

  /** The longest file the operating system can address. */
  const MAX_FILE_LENGTH: nat := 0x7FFF_FFFF_FFFF_FFFF

  ghost predicate ValidFile(f: File) {
    f.synced <= |f.content| <= MAX_FILE_LENGTH
  }

  /** How many bytes of a write reach the file when the device stops early. */
  function Reach(length: nat, pos: nat, stopsAt: Option<nat>): (k: nat)
    requires pos <= MAX_FILE_LENGTH
    ensures k <= length && pos + k <= MAX_FILE_LENGTH
  {
    var room := Min(length, MAX_FILE_LENGTH - pos);
    match stopsAt
    case None => room
    case Some(n) => Min(n, room)
  }

  /** A write at a position: bytes there are overwritten, a gap behind the end
      is filled with zeros, and overwritten bytes are no longer synchronized. */
  function Write(f: File, pos: nat, data: seq<byte>): (r: File)
    ensures pos == |f.content| && f.synced <= pos ==> r == File(f.content + data, f.synced)
  {
    if pos > |f.content| then File(f.content + seq(pos - |f.content|, _ => 0) + data, f.synced)
    else
      var after := if pos + |data| < |f.content| then f.content[pos + |data|..] else [];
      File(f.content[..pos] + data + after, Min(f.synced, pos))
  }

  class Disk {
    var content: seq<byte>
    ghost var synced: nat

    ghost function State(): File
      reads this
    {
      File(content, synced)
    }

    constructor (content: seq<byte>)
      ensures State() == File(content, |content|)
    {
      this.content, synced := content, |content|;
    }

    /** Seeks and writes; reports whether every byte was taken. */
    method WriteAt(pos: nat, data: seq<byte>, stopsAt: Option<nat>) returns (ok: bool)
      requires pos <= MAX_FILE_LENGTH
      modifies this
      ensures var k := Reach(|data|, pos, stopsAt);
              State() == Write(old(State()), pos, data[..k]) && ok == (k == |data|)
    {
      var k := Reach(|data|, pos, stopsAt);
      if pos > |content| {
        content := content + seq(pos - |content|, _ => 0) + data[..k];
      } else {
        var after := if pos + k < |content| then content[pos + k..] else [];
        content, synced := content[..pos] + data[..k] + after, Min(synced, pos);
      }
      ok := k == |data|;
    }

    method SetLen(length: nat)
      requires length <= |content|
      modifies this
      ensures State() == File(old(content)[..length], Min(old(synced), length))
    {
      content := content[..length];
      synced := Min(synced, length);
    }

    method SyncData(fails: bool) returns (ok: bool)
      modifies this
      ensures ok == !fails && State() == File(old(content), if fails then old(synced) else |old(content)|)
    {
      ok := !fails;
      if ok {
        synced := |content|;
      }
    }
  }
}
