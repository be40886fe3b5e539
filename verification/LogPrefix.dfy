/** Hashing a run log in chunks, and checking that the log recorded before is still its beginning. */
module LogPrefix {
  import opened Text

  type Bytes = seq<bv8>

  type Hash = Bytes -> string

  const HASH_CHUNK_BYTES: nat := 1024 * 1024

  /** What an audit records of the log: its length and hash. A stored length may be anything. */
  datatype Prefix = Prefix(bytes: int, sha256: string)

  datatype Result = Ok(prefix: Prefix) | Rewritten | ShortRead

  /** How many bytes a read at an offset returns when so many are asked for; nothing or less means the end. */
  type Reads = (nat, nat) -> int

  /** The file system returns at most what was asked for. */
  ghost predicate ReadsAtMost(got: Reads)
  {
    forall offset: nat, length: nat :: got(offset, length) <= length
  }

  /** No read returns nothing before the end of the file. */
  ghost predicate ReadsOn(got: Reads)
  {
    forall offset: nat, length: nat :: length > 0 ==> got(offset, length) > 0
  }

  /** The recorded beginning is still there. */
  predicate Extends(content: Bytes, previous: Option<Prefix>, hash: Hash)
  {
    previous.Some? ==>
      && 0 <= previous.value.bytes <= |content|
      && hash(content[..previous.value.bytes]) == previous.value.sha256
  }

  /**
   * Whatever the length of the file and of each read: the hash of the whole log when its recorded beginning is
   * unchanged, and a fault when it is not; a read may come up short, but then nothing is accepted.
   */
  method ReadPrefix(content: Bytes, previous: Option<Prefix>, hash: Hash, got: Reads) returns (r: Result)
    requires ReadsAtMost(got)
    ensures r.Ok? ==> Extends(content, previous, hash) && r.prefix == Prefix(|content|, hash(content))
    ensures r.Rewritten? ==> !Extends(content, previous, hash)
    ensures ReadsOn(got) ==> r == if Extends(content, previous, hash) then Ok(Prefix(|content|, hash(content))) else Rewritten
  {
    if previous.Some? && (previous.value.bytes < 0 || |content| < previous.value.bytes) { return Rewritten; }
    var want := if previous.Some? then previous.value.bytes else -1;
    var whole: Bytes := [];
    var prefixDigest := if want == 0 then Some(hash([])) else None;
    var offset := 0;
    var more := true;
    while offset < |content| && more
      invariant 0 <= offset <= |content| && whole == content[..offset] && -1 <= want <= |content|
      invariant want >= 0 && offset >= want ==> prefixDigest == Some(hash(content[..want]))
      invariant want >= 0 && offset < want ==> prefixDigest == None
      invariant !more ==> !ReadsOn(got)
      decreases |content| - offset, more
    {
      var length := if HASH_CHUNK_BYTES < |content| - offset then HASH_CHUNK_BYTES else |content| - offset;
      if want >= 0 && offset < want && offset + length > want { length := want - offset; }
      var read := got(offset, length);
      if read <= 0 {
        more := false;
      } else {
        Extend(content, offset, read);
        whole := whole + content[offset..offset + read];
        offset := offset + read;
        if offset == want { prefixDigest := Some(hash(whole)); }
      }
    }
    if offset != |content| { return ShortRead; }
    assert content[..|content|] == content;
    if previous.Some? && prefixDigest != Some(previous.value.sha256) { return Rewritten; }
    return Ok(Prefix(|content|, hash(whole)));
  }

  lemma Extend(content: Bytes, offset: nat, read: nat)
    requires offset + read <= |content|
    ensures content[..offset] + content[offset..offset + read] == content[..offset + read]
  {
  }

  // ----- Logs that only grow -----

  ghost predicate CollisionFree(hash: Hash)
  {
    forall a, b :: hash(a) == hash(b) ==> a == b
  }

  predicate Begins(before: Bytes, after: Bytes)
  {
    |before| <= |after| && after[..|before|] == before
  }

  function Recorded(content: Bytes, hash: Hash): Prefix
  {
    Prefix(|content|, hash(content))
  }

  /** An accepted log begins with the log recorded before, and the other way round. */
  lemma AcceptedExactlyWhenItExtends(before: Bytes, after: Bytes, hash: Hash)
    requires CollisionFree(hash)
    ensures Extends(after, Some(Recorded(before, hash)), hash) <==> Begins(before, after)
  {
  }

  lemma BeginsTransitive(a: Bytes, b: Bytes, c: Bytes)
    requires Begins(a, b) && Begins(b, c)
    ensures Begins(a, c)
  {
    assert c[..|a|] == c[..|b|][..|a|];
  }
}
