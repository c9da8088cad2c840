/** Per-file work of the workspace indexer: the modification-time/size hash, the cache
    hit, the blank-content check, and storing a file's chunks one by one until the
    first failure. File-system access and the vector store are oracles passed in. */
module Processing {
  import opened Wrappers
  import opened Text
  import opened Chunking

  /** What `os.stat` reports for a file: `st_mtime` in the text form Python prints it,
      and `st_size`. */
  datatype Stat = Stat(mtimeText: string, size: nat)

  /** `_get_file_hash`: `"<mtime>_<size>"`, or the empty string when `os.stat` fails. */
  function FileHash(stat: Option<Stat>): (h: string)
    ensures h == "" <==> stat.None?
  {
    match stat
    case None => ""
    case Some(s) => s.mtimeText + "_" + NatToString(s.size)
  }

  /** Two stat results with the same hash are the same: the size's digits hold no `_`,
      so the last `_` of the hash separates modification time from size. A change of
      either therefore changes the hash and defeats the cache. */
  lemma FileHashInjective(a: Stat, b: Stat)
    requires FileHash(Some(a)) == FileHash(Some(b))
    ensures a == b
  {
    var h := FileHash(Some(a));
    LastSeparator(a.mtimeText, NatToString(a.size));
    LastSeparator(b.mtimeText, NatToString(b.size));
    assert NatToString(a.size) == h[|a.mtimeText| + 1..] == NatToString(b.size);
    NatToStringInjective(a.size, b.size);
    assert a.mtimeText == h[..|a.mtimeText|] == b.mtimeText;
  }

  /** In `m + "_" + d` with `d` all digits, the last `_` is the one after `m`. */
  lemma LastSeparator(m: string, d: string)
    requires AllDigits(d)
    ensures LastIndexOf(m + "_" + d, '_') == |m|
  {
    assert '_' !in d by {
      forall k | 0 <= k < |d| ensures d[k] != '_' { assert '0' <= d[k] <= '9'; }
    }
    LastIndexAfter(m, '_', d);
  }

  /** `read_file`: the file's text, or the empty string when it cannot be read or decoded. */
  function ReadFile(read: Option<string>): (content: string)
    ensures read.None? ==> content == ""
    ensures read.Some? ==> content == read.value
  {
    read.GetOr("")
  }

  /** One `upsert` call of `_index_chunk`: document id, text, and the metadata path and index. */
  datatype ChunkRecord = ChunkRecord(id: string, document: string, path: string, chunkIndex: nat)

  /** The document id of chunk `i` of `path`: `f"{file_path}_{index}"`. */
  function ChunkId(path: string, i: nat): string {
    path + "_" + NatToString(i)
  }

  /** Chunk ids of one file are pairwise distinct. */
  lemma ChunkIdsDistinct(path: string, i: nat, j: nat)
    requires ChunkId(path, i) == ChunkId(path, j)
    ensures i == j
  {
    var di := NatToString(i);
    var dj := NatToString(j);
    assert di == ChunkId(path, i)[|path| + 1..];
    assert dj == ChunkId(path, j)[|path| + 1..];
    NatToStringInjective(i, j);
  }

  /** The upsert calls for a file's content, one per chunk in order. */
  function Records(path: string, content: string): (recs: seq<ChunkRecord>)
    ensures |recs| == |Chunks(content)|
  {
    var chunks := Chunks(content);
    seq(|chunks|, i requires 0 <= i < |chunks| => ChunkRecord(ChunkId(path, i), chunks[i], path, i))
  }

  /** The document texts of a sequence of records. */
  function Documents(recs: seq<ChunkRecord>): (docs: seq<string>)
    ensures |docs| == |recs|
    ensures forall i | 0 <= i < |recs| :: docs[i] == recs[i].document
  {
    seq(|recs|, i requires 0 <= i < |recs| => recs[i].document)
  }

  /** The documents of a file's records are its chunks, so they concatenate back to the
      content; record `i` carries id `path_i`, metadata path `path` and index `i`. */
  lemma RecordsFaithful(path: string, content: string)
    ensures forall i | 0 <= i < |Records(path, content)| ::
              var r := Records(path, content)[i];
              r.id == ChunkId(path, i) && r.path == path && r.chunkIndex == i && r.document == Chunks(content)[i]
    ensures Join(Documents(Records(path, content)), "") == content
  {
    assert Documents(Records(path, content)) == Chunks(content);
    ChunksConcat(content);
  }

  /** How a run of upserts ended. */
  datatype UpsertRun = AllStored | StoppedAt(index: nat)

  /** The loop of `_process_file` over the chunks: upsert each in turn and stop at the
      first one the store rejects. */
  function UpsertChunks(records: seq<ChunkRecord>, upsert: ChunkRecord -> bool): (run: UpsertRun)
    ensures run.AllStored? <==> forall k | 0 <= k < |records| :: upsert(records[k])
    ensures run.StoppedAt? ==>
              && run.index < |records|
              && !upsert(records[run.index])
              && forall k | 0 <= k < run.index :: upsert(records[k])
    decreases |records|
  {
    if |records| == 0 then AllStored
    else if !upsert(records[0]) then StoppedAt(0)
    else
      match UpsertChunks(records[1..], upsert)
      case AllStored => AllStored
      case StoppedAt(i) => StoppedAt(i + 1)
  }

  /** The upserts actually issued by a run: all of them, or those up to and including the failed one. */
  function Attempted(records: seq<ChunkRecord>, run: UpsertRun): seq<ChunkRecord>
    requires run.StoppedAt? ==> run.index < |records|
  {
    match run
    case AllStored => records
    case StoppedAt(i) => records[..i + 1]
  }

  /** The upserts a run issued are a non-empty prefix of the records when it stopped, ending
      in the rejected one after accepted ones; all of them when everything was stored. */
  lemma AttemptedPrefix(records: seq<ChunkRecord>, upsert: ChunkRecord -> bool)
    ensures var run := UpsertChunks(records, upsert);
            var att := Attempted(records, run);
            && (run.AllStored? ==> att == records)
            && (run.StoppedAt? ==>
                  && 0 < |att| <= |records|
                  && att == records[..|att|]
                  && !upsert(att[|att| - 1])
                  && forall k | 0 <= k < |att| - 1 :: upsert(att[k]))
  {
  }

  /** The four outcomes `_process_file` reports. */
  datatype Status = Skipped | ErrorOrEmpty | Indexed | Error

  /** The `(file_path, status, current_hash)` triple. */
  datatype FileResult = FileResult(path: string, status: Status, hash: string)

  /** A file's result together with what it did to the outside world: whether it read the
      file and which upserts it issued. */
  datatype FileOutcome = FileOutcome(result: FileResult, readDone: bool, attempted: seq<ChunkRecord>)

  /** The file's cache entry equals its current hash. */
  predicate CacheHit(path: string, cache: map<string, string>, hash: string) {
    path in cache && cache[path] == hash
  }

  /** Storing a non-blank file: its chunk records are upserted in order until the first
      rejection. The status is `indexed` iff every record was accepted, in which case all
      were issued; otherwise it is `error`, and the records issued are a non-empty prefix
      ending in the rejected one after accepted ones. */
  function StoreChunks(path: string, content: string, upsert: ChunkRecord -> bool)
    : (out: (Status, seq<ChunkRecord>))
    ensures out.0 == Indexed || out.0 == Error
    ensures out.0 == Indexed <==> forall k | 0 <= k < |Records(path, content)| :: upsert(Records(path, content)[k])
    ensures out.0 == Indexed ==> out.1 == Records(path, content)
    ensures out.0 == Error ==>
              && 0 < |out.1| <= |Records(path, content)|
              && out.1 == Records(path, content)[..|out.1|]
              && !upsert(out.1[|out.1| - 1])
              && forall k | 0 <= k < |out.1| - 1 :: upsert(out.1[k])
  {
    var records := Records(path, content);
    var run := UpsertChunks(records, upsert);
    AttemptedPrefix(records, upsert);
    (if run.AllStored? then Indexed else Error, Attempted(records, run))
  }

  /** `_process_file`: skip on a cache hit without reading; report blank (or unreadable)
      content without storing anything; otherwise store the chunks until the first
      failure and report `indexed` or `error`. The hash is reported in every case. */
  function ProcessFile(path: string, cache: map<string, string>, stat: Option<Stat>, read: Option<string>,
                       upsert: ChunkRecord -> bool): (o: FileOutcome)
    ensures o.result.path == path && o.result.hash == FileHash(stat)
    ensures o.result.status == Skipped <==> CacheHit(path, cache, FileHash(stat))
    ensures o.result.status == Skipped ==> !o.readDone && o.attempted == []
    ensures o.result.status != Skipped ==> o.readDone
    ensures o.result.status == ErrorOrEmpty <==>
              !CacheHit(path, cache, FileHash(stat)) && AllSpace(ReadFile(read), IsPySpace)
    ensures o.result.status == ErrorOrEmpty ==> o.attempted == []
    ensures o.result.status == Indexed || o.result.status == Error ==>
              (o.result.status, o.attempted) == StoreChunks(path, ReadFile(read), upsert)
  {
    var hash := FileHash(stat);
    if CacheHit(path, cache, hash) then
      FileOutcome(FileResult(path, Skipped, hash), false, [])
    else
      var content := ReadFile(read);
      if PyStrip(content) == "" then
        FileOutcome(FileResult(path, ErrorOrEmpty, hash), true, [])
      else
        var stored := StoreChunks(path, content, upsert);
        FileOutcome(FileResult(path, stored.0, hash), true, stored.1)
  }
}
