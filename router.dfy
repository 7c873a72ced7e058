/**
 * The fusion web router: upload validation over raw bytes (type detection, size limit,
 * pre-parse checks), the row-limit guard, and the in-memory store of asynchronous jobs.
 */
module Router {
  import opened Wrappers
  import opened Text
  import opened Service

  newtype Byte = x: int | 0 <= x < 256

  datatype FileType = ParquetFile | CsvFile

  datatype Reason =
    | EmptyFile
    | ExcelNotSupported
    | FileTooLarge
    | NotCsv
    | NotParquet
    | RowLimitTooLarge
    | JobNotFound

  datatype HttpError = HttpError(status: nat, reason: Reason)

  /** `b"PAR1"`, the Parquet magic number. */
  const ParquetMagic: seq<Byte> := [0x50, 0x41, 0x52, 0x31]

  /** `b"PK"`, the start of a ZIP container such as an Excel workbook. */
  const ZipMagic: seq<Byte> := [0x50, 0x4B]

  /** The bytes of `,`, `;`, tab, line feed and carriage return. */
  const CsvDelimiters: set<Byte> := {0x2C, 0x3B, 0x09, 0x0A, 0x0D}

  /**
   * `_detect_file_type`: the magic number decides first (Parquet accepted, a ZIP container
   * rejected), then the file name's extension, compared without regard to case; anything
   * else is taken for CSV.
   */
  function DetectFileType(bytes: seq<Byte>, filename: Option<string>): (r: Result<FileType, HttpError>)
    ensures bytes == [] ==> r == Err(HttpError(422, EmptyFile))
    ensures bytes != [] && StartsWith(bytes, ParquetMagic) ==> r == Ok(ParquetFile)
    ensures |bytes| >= 4 && StartsWith(bytes, ZipMagic) && !StartsWith(bytes, ParquetMagic) ==>
      r == Err(HttpError(422, ExcelNotSupported))
    ensures r == Ok(ParquetFile) <==>
      || StartsWith(bytes, ParquetMagic)
      || (bytes != [] && !(|bytes| >= 4 && StartsWith(bytes, ZipMagic))
          && filename.Some? && EndsWith(LowerAscii(filename.value), ".parquet"))
    ensures && bytes != [] && !StartsWith(bytes, ParquetMagic) && !(|bytes| >= 4 && StartsWith(bytes, ZipMagic))
            && filename.Some? && !EndsWith(LowerAscii(filename.value), ".parquet")
            && (EndsWith(LowerAscii(filename.value), ".xlsx") || EndsWith(LowerAscii(filename.value), ".xls"))
            ==> r == Err(HttpError(422, ExcelNotSupported))
    ensures r == Ok(CsvFile) <==>
      && bytes != [] && !StartsWith(bytes, ParquetMagic) && !(|bytes| >= 4 && StartsWith(bytes, ZipMagic))
      && !(filename.Some? && (|| EndsWith(LowerAscii(filename.value), ".parquet")
                              || EndsWith(LowerAscii(filename.value), ".xlsx")
                              || EndsWith(LowerAscii(filename.value), ".xls")))
  {
    if |bytes| == 0 then Err(HttpError(422, EmptyFile))
    else if |bytes| >= 4 && bytes[..4] == ParquetMagic then Ok(ParquetFile)
    else if |bytes| >= 4 && bytes[..2] == ZipMagic then Err(HttpError(422, ExcelNotSupported))
    else if filename.Some? && filename.value != "" then
      var lower := LowerAscii(filename.value);
      if EndsWith(lower, ".parquet") then Ok(ParquetFile)
      else if EndsWith(lower, ".xlsx") || EndsWith(lower, ".xls") then Err(HttpError(422, ExcelNotSupported))
      else Ok(CsvFile)
    else Ok(CsvFile)
  }

  /** `_validate_file_size`: 413 exactly when the content exceeds `max_size_mb` MiB. */
  function ValidateFileSize(bytes: seq<Byte>, maxSizeMb: int): (r: Result<(), HttpError>)
    ensures r.Err? <==> |bytes| > maxSizeMb * 1024 * 1024
    ensures r.Err? ==> r.error == HttpError(413, FileTooLarge)
  {
    if |bytes| > maxSizeMb * 1024 * 1024 then Err(HttpError(413, FileTooLarge)) else Ok(())
  }

  /** The first `n` bytes, or all of them when there are fewer. */
  function Prefix(bytes: seq<Byte>, n: nat): seq<Byte>
  {
    if |bytes| <= n then bytes else bytes[..n]
  }

  /**
   * The guards of `_read_csv` before parsing: not empty, and some delimiter among the first
   * 1024 bytes. Decoding with `errors="ignore"` keeps every ASCII byte as its character and
   * adds none, so the check is on bytes.
   */
  function CsvPrecheck(bytes: seq<Byte>): (r: Result<(), HttpError>)
    ensures r.Ok? <==> bytes != [] && exists i :: 0 <= i < |bytes| && i < 1024 && bytes[i] in CsvDelimiters
    ensures r.Err? ==> r.error.status == 422
  {
    if |bytes| == 0 then Err(HttpError(422, EmptyFile))
    else if !exists b :: b in Prefix(bytes, 1024) && b in CsvDelimiters then Err(HttpError(422, NotCsv))
    else
      assert forall b :: b in Prefix(bytes, 1024) <==> exists i :: 0 <= i < |bytes| && i < 1024 && bytes[i] == b;
      Ok(())
  }

  /** The guards of `_read_parquet` before parsing: at least 4 bytes, starting `PAR1`. */
  function ParquetPrecheck(bytes: seq<Byte>): (r: Result<(), HttpError>)
    ensures r.Ok? <==> StartsWith(bytes, ParquetMagic)
    ensures r.Err? ==> r.error == HttpError(422, NotParquet)
  {
    if |bytes| < 4 then Err(HttpError(422, NotParquet))
    else if bytes[..4] != ParquetMagic then Err(HttpError(422, NotParquet))
    else Ok(())
  }

  /** The pre-parse guard for a detected type. */
  function Precheck(bytes: seq<Byte>, fileType: FileType): Result<(), HttpError>
  {
    if fileType == ParquetFile then ParquetPrecheck(bytes) else CsvPrecheck(bytes)
  }

  /**
   * The checks `fuse_upload` makes on the two uploads before parsing, in its order: A not
   * empty and within the size limit, the same for B, the type of A then of B, the pre-parse
   * guard of A then of B. A file taken for Parquet has the magic number and one taken for
   * CSV has a delimiter near its start, whatever the file names say.
   */
  function CheckUploads(contentA: seq<Byte>, filenameA: Option<string>,
                        contentB: seq<Byte>, filenameB: Option<string>,
                        maxSizeMb: int): (r: Result<(FileType, FileType), HttpError>)
    ensures r.Ok? ==>
      && 0 < |contentA| <= maxSizeMb * 1024 * 1024
      && 0 < |contentB| <= maxSizeMb * 1024 * 1024
      && (r.value.0 == ParquetFile <==> StartsWith(contentA, ParquetMagic))
      && (r.value.1 == ParquetFile <==> StartsWith(contentB, ParquetMagic))
      && (r.value.0 == CsvFile ==> exists i :: 0 <= i < |contentA| && i < 1024 && contentA[i] in CsvDelimiters)
      && (r.value.1 == CsvFile ==> exists i :: 0 <= i < |contentB| && i < 1024 && contentB[i] in CsvDelimiters)
    ensures contentA == [] ==> r == Err(HttpError(422, EmptyFile))
  {
    if contentA == [] then Err(HttpError(422, EmptyFile))
    else if ValidateFileSize(contentA, maxSizeMb).Err? then Err(ValidateFileSize(contentA, maxSizeMb).error)
    else if contentB == [] then Err(HttpError(422, EmptyFile))
    else if ValidateFileSize(contentB, maxSizeMb).Err? then Err(ValidateFileSize(contentB, maxSizeMb).error)
    else
      match DetectFileType(contentA, filenameA)
      case Err(e) => Err(e)
      case Ok(typeA) =>
        match DetectFileType(contentB, filenameB)
        case Err(e) => Err(e)
        case Ok(typeB) =>
          if Precheck(contentA, typeA).Err? then Err(Precheck(contentA, typeA).error)
          else if Precheck(contentB, typeB).Err? then Err(Precheck(contentB, typeB).error)
          else Ok((typeA, typeB))
  }

  /** Parquet content is accepted as Parquet whatever its file name. */
  lemma ParquetMagicWins(contentA: seq<Byte>, filenameA: Option<string>,
                         contentB: seq<Byte>, filenameB: Option<string>, maxSizeMb: int)
    requires StartsWith(contentA, ParquetMagic) && StartsWith(contentB, ParquetMagic)
    requires |contentA| <= maxSizeMb * 1024 * 1024 && |contentB| <= maxSizeMb * 1024 * 1024
    ensures CheckUploads(contentA, filenameA, contentB, filenameB, maxSizeMb) == Ok((ParquetFile, ParquetFile))
  {
  }

  /** A file named `.parquet` without the magic number passes detection but not the guard. */
  lemma ParquetNameWithoutMagicRejected(bytes: seq<Byte>, filename: string)
    requires bytes != [] && !StartsWith(bytes, ParquetMagic) && !(|bytes| >= 4 && StartsWith(bytes, ZipMagic))
    requires EndsWith(LowerAscii(filename), ".parquet")
    ensures DetectFileType(bytes, Some(filename)) == Ok(ParquetFile)
    ensures Precheck(bytes, ParquetFile) == Err(HttpError(422, NotParquet))
  {
  }

  /**
   * The extension test ignores case: a file whose name ends in `.PARQUET`, `.Parquet` or any
   * other case variant of `.parquet` is taken for Parquet when its bytes decide nothing.
   */
  lemma ParquetNameAnyCase(bytes: seq<Byte>, base: string, ext: string)
    requires bytes != [] && !StartsWith(bytes, ParquetMagic) && !(|bytes| >= 4 && StartsWith(bytes, ZipMagic))
    requires LowerAscii(ext) == ".parquet"
    ensures DetectFileType(bytes, Some(base + ext)) == Ok(ParquetFile)
  {
    assert EndsWith(base + ext, ext);
    EndsWithIgnoringCase(base + ext, ext);
  }

  /** The row-limit guard of `fuse`: 413 exactly when the requested limit exceeds `max_rows`. */
  function CheckRowLimit(rowLimit: Option<nat>, maxRows: int): (r: Result<(), HttpError>)
    ensures r.Err? <==> rowLimit.Some? && rowLimit.value > maxRows
    ensures r.Err? ==> r.error == HttpError(413, RowLimitTooLarge)
  {
    if rowLimit.Some? && rowLimit.value > maxRows then Err(HttpError(413, RowLimitTooLarge)) else Ok(())
  }

  // ---------------------------------------------------------------------------------------
  // Asynchronous jobs

  /** `JOB_TTL_SECONDS`. */
  const JobTtlSeconds: real := 3600.0

  datatype JobStatus = Pending | Done(result: FuseResponse) | Failed(error: string)

  /** The entries of `m` whose timestamp is at most `JOB_TTL_SECONDS` old at time `now`. */
  function Unexpired<V>(m: map<string, V>, timestamps: map<string, real>, now: real): (r: map<string, V>)
    ensures forall id :: id in r <==> id in m && id in timestamps && now - timestamps[id] <= JobTtlSeconds
    ensures forall id :: id in r ==> r[id] == m[id]
  {
    map id | id in m && id in timestamps && now - timestamps[id] <= JobTtlSeconds :: m[id]
  }

  /** A cleanup at a later time subsumes one made earlier. */
  lemma LaterCleanupSubsumes<V>(m: map<string, V>, timestamps: map<string, real>, t1: real, t2: real)
    requires t1 <= t2
    ensures Unexpired(Unexpired(m, timestamps, t1), Unexpired(timestamps, timestamps, t1), t2)
         == Unexpired(m, timestamps, t2)
  {
    var lhs := Unexpired(Unexpired(m, timestamps, t1), Unexpired(timestamps, timestamps, t1), t2);
    assert forall id :: id in lhs <==> id in Unexpired(m, timestamps, t2);
  }

  /** A job written at time `t` is still there at any `now` within the TTL of `t`. */
  lemma FreshEntrySurvives<V>(m: map<string, V>, timestamps: map<string, real>, id: string, v: V,
                              t: real, now: real)
    requires now - t <= JobTtlSeconds
    ensures id in Unexpired(m[id := v], timestamps[id := t], now)
    ensures Unexpired(m[id := v], timestamps[id := t], now)[id] == v
  {
  }

  /**
   * `_JOB_STORE` and `_JOB_TIMESTAMPS`. Every write goes to both maps, so they always have
   * the same keys. Time is passed in; the lock around each access is not modelled.
   */
  class JobStore {
    var jobs: map<string, JobStatus>
    var timestamps: map<string, real>

    ghost predicate Valid()
      reads this
    {
      jobs.Keys == timestamps.Keys
    }

    constructor()
      ensures Valid() && jobs == map[] && timestamps == map[]
    {
      jobs := map[];
      timestamps := map[];
    }

    /** `_cleanup_old_jobs`: removes exactly the jobs older than the TTL, from both maps. */
    method CleanupOldJobs(now: real)
      modifies this
      requires Valid()
      ensures Valid()
      ensures jobs == Unexpired(old(jobs), old(timestamps), now)
      ensures timestamps == Unexpired(old(timestamps), old(timestamps), now)
    {
      var expired := set id | id in timestamps && now - timestamps[id] > JobTtlSeconds;
      ghost var allExpired := expired;
      ghost var jobs0, timestamps0 := jobs, timestamps;
      while expired != {}
        invariant expired <= allExpired
        invariant jobs == map id | id in jobs0 && id !in allExpired - expired :: jobs0[id]
        invariant timestamps == map id | id in timestamps0 && id !in allExpired - expired :: timestamps0[id]
        decreases |expired|
      {
        var id :| id in expired;
        jobs := jobs - {id};
        timestamps := timestamps - {id};
        expired := expired - {id};
      }
      assert jobs == Unexpired(jobs0, timestamps0, now);
      assert timestamps == Unexpired(timestamps0, timestamps0, now);
    }

    /** `fuse_async`: clean up, then record the new job as pending at `now`. */
    method CreateJob(id: string, now: real)
      modifies this
      requires Valid()
      ensures Valid()
      ensures jobs == Unexpired(old(jobs), old(timestamps), now)[id := Pending]
      ensures timestamps == Unexpired(old(timestamps), old(timestamps), now)[id := now]
    {
      CleanupOldJobs(now);
      jobs := jobs[id := Pending];
      timestamps := timestamps[id := now];
    }

    /** `_run_fusion_job`: record the outcome as done or failed and refresh the timestamp. */
    method CompleteJob(id: string, outcome: Result<FuseResponse, string>, now: real)
      modifies this
      requires Valid()
      ensures Valid()
      ensures jobs == old(jobs)[id := if outcome.Ok? then Done(outcome.value) else Failed(outcome.error)]
      ensures timestamps == old(timestamps)[id := now]
    {
      jobs := jobs[id := if outcome.Ok? then Done(outcome.value) else Failed(outcome.error)];
      timestamps := timestamps[id := now];
    }

    /** `fuse_async_status`: clean up, then report the job, or 404 when there is none. */
    method Status(id: string, now: real) returns (r: Result<JobStatus, HttpError>)
      modifies this
      requires Valid()
      ensures Valid()
      ensures jobs == Unexpired(old(jobs), old(timestamps), now)
      ensures timestamps == Unexpired(old(timestamps), old(timestamps), now)
      ensures r.Ok? <==> id in jobs
      ensures r.Ok? ==> r.value == jobs[id]
      ensures r.Err? ==> r.error == HttpError(404, JobNotFound)
    {
      CleanupOldJobs(now);
      if id in jobs {
        r := Ok(jobs[id]);
      } else {
        r := Err(HttpError(404, JobNotFound));
      }
    }
  }
}
