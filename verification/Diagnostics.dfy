/**
 Diagnostic records, and the paging that delivers a long message as several records of one fixed
 size: a linear record number is mapped to a stored record and a chunk of its message.
 */
module DiagnosticPaging {
  import opened Blocks

  const MAX_DIAGNOSTIC_RECORDS := 16
  const SQLSTATE_LENGTH := 5
  const DEFAULT_PAGE_SIZE := 511

  // An absent message reads as the empty one.
  datatype Record = Record(sqlstate: string, nativeError: int, message: string)

  datatype Diagnostics = Diagnostics(records: seq<Record>, chunkSize: nat)

  datatype Retrieved =
    | InvalidNumber
    | NoData
    | Retrieved(sqlstate: string, nativeError: int, text: string, textLength: nat, truncated: bool)

  datatype Location = Nowhere | At(record: nat, chunk: nat)

  // An empty message still takes one chunk.
  function ChunkCount(message: string, size: nat): (count: nat)
    requires size > 0
    ensures count > 0
  {
    if message == "" then 1
    else
      CountPositive(|message|, size);
      (|message| + size - 1) / size
  }

  lemma CountPositive(length: nat, size: nat)
    requires length > 0 && size > 0
    ensures (length + size - 1) / size > 0
  {
    QuotientStep(length - 1, size);
  }

  // Walks the records until the position falls into one of them.
  function Locate(records: seq<Record>, position: nat, size: nat): Location
    requires size > 0 && position > 0
  {
    if records == [] then Nowhere
    else if position <= ChunkCount(records[0].message, size) then At(0, position - 1)
    else
      match Locate(records[1..], position - ChunkCount(records[0].message, size), size)
      case Nowhere => Nowhere
      case At(record, chunk) => At(record + 1, chunk)
  }

  function ChunkText(message: string, chunk: nat, size: nat): string {
    var offset := chunk * size;
    if offset >= |message| then "" else FirstOf(message[offset..], size)
  }

  // The first call fixes the chunk size from its buffer, keeping one byte for the terminator.
  function NegotiatedSize(chunkSize: nat, recordNumber: int, bufferLength: int): (size: nat)
    ensures size > 0
  {
    if chunkSize != 0 && recordNumber != 1 then chunkSize
    else if bufferLength > 1 then bufferLength - 1
    else if chunkSize == 0 then DEFAULT_PAGE_SIZE
    else chunkSize
  }

  function Deliver(records: seq<Record>, location: Location, size: nat, bufferLength: int): Retrieved
    requires location.At? ==> location.record < |records|
  {
    match location
    case Nowhere => NoData
    case At(record, chunk) => DeliverChunk(records[record], chunk, size, bufferLength)
  }

  // A buffer smaller than the chunk size truncates within the chunk.
  function DeliverChunk(record: Record, chunk: nat, size: nat, bufferLength: int): Retrieved {
    var text := ChunkText(record.message, chunk, size);
    var written := if bufferLength > 0 then FirstOf(text, bufferLength - 1) else "";
    Retrieved(record.sqlstate, record.nativeError, written, |text|, |written| < |text|)
  }

  lemma LocateInRange(records: seq<Record>, position: nat, size: nat)
    requires size > 0 && position > 0
    ensures var l := Locate(records, position, size);
            l.At? ==> l.record < |records| && l.chunk < ChunkCount(records[l.record].message, size)
  {
    hide ChunkCount;
    if records != [] && position > ChunkCount(records[0].message, size) {
      LocateInRange(records[1..], position - ChunkCount(records[0].message, size), size);
    }
  }

  function GetDiagRec(d: Diagnostics, recordNumber: int, bufferLength: int): (Diagnostics, Retrieved) {
    if recordNumber < 1 then (d, InvalidNumber)
    else
      var size := NegotiatedSize(d.chunkSize, recordNumber, bufferLength);
      LocateInRange(d.records, recordNumber, size);
      (d.(chunkSize := size), Deliver(d.records, Locate(d.records, recordNumber, size), size, bufferLength))
  }

  // ---- The pages in reading order ----

  datatype Page = Page(record: nat, chunk: nat, text: string)

  function Chunks(message: string, size: nat): (chunks: seq<string>)
    requires size > 0
    ensures chunks != []
  {
    if message == "" then [""] else FromFront(message, size)
  }

  function PagesOf(chunks: seq<string>, record: nat): (pages: seq<Page>)
    ensures |pages| == |chunks|
    ensures forall k :: 0 <= k < |chunks| ==> pages[k] == Page(record, k, chunks[k])
  {
    seq(|chunks|, k requires 0 <= k < |chunks| => Page(record, k, chunks[k]))
  }

  // Every chunk of every record, in order; `first` is the index of the first record.
  function Pages(records: seq<Record>, size: nat, first: nat): seq<Page>
    requires size > 0
  {
    if records == [] then []
    else PagesOf(Chunks(records[0].message, size), first) + Pages(records[1..], size, first + 1)
  }

  lemma QuotientStep(a: nat, size: nat)
    requires size > 0
    ensures (a + size) / size == a / size + 1
  {
    var q, r := a / size, a % size;
    assert a + size == (q + 1) * size + r;
    QuotientUnique(a + size, size, q + 1, r);
  }

  lemma QuotientUnique(n: nat, size: nat, q: nat, r: nat)
    requires size > 0 && n == q * size + r && r < size
    ensures n / size == q
  {
    var p, s := n / size, n % size;
    assert n == p * size + s;
    assert p < q ==> (p + 1) * size <= q * size;
    assert p > q ==> (q + 1) * size <= p * size;
  }

  lemma {:induction false} ChunksCounted(message: string, size: nat)
    requires size > 0
    ensures |Chunks(message, size)| == ChunkCount(message, size)
    decreases |message|
  {
    if message != "" {
      if |message| <= size {
        QuotientUnique(|message| + size - 1, size, 1, |message| - 1);
      } else {
        ChunksCounted(message[size..], size);
        QuotientStep(|message| - 1, size);
      }
    }
  }

  lemma {:induction false} ChunksAre(message: string, size: nat, k: nat)
    requires size > 0 && k < |Chunks(message, size)|
    ensures ChunkText(message, k, size) == Chunks(message, size)[k]
    decreases |message|
  {
    if k > 0 {
      assert |message| > size;
      ChunksAre(message[size..], size, k - 1);
      NextChunk(message, size, k);
    } else if message != "" {
      assert 0 * size == 0 && message[0..] == message;
    }
  }

  lemma NextChunk(message: string, size: nat, k: nat)
    requires 0 < size < |message| && k > 0
    ensures ChunkText(message, k, size) == ChunkText(message[size..], k - 1, size)
  {
    var before := (k - 1) * size;
    assert k * size == before + size;
    if before + size < |message| {
      assert message[size..][before..] == message[before + size..];
    }
  }

  // A record number is an index into the pages.
  lemma {:induction false} LocateIsPage(records: seq<Record>, position: nat, size: nat, first: nat)
    requires size > 0 && position > 0
    ensures var pages := Pages(records, size, first);
            match Locate(records, position, size)
            case Nowhere => position > |pages|
            case At(record, chunk) =>
              && record < |records| && position <= |pages|
              && pages[position - 1] == Page(first + record, chunk, ChunkText(records[record].message, chunk, size))
  {
    hide ChunkCount, ChunkText, Chunks;
    if records != [] {
      var chunks := Chunks(records[0].message, size);
      ChunksCounted(records[0].message, size);
      if position <= |chunks| {
        ChunksAre(records[0].message, size, position - 1);
      } else {
        LocateIsPage(records[1..], position - |chunks|, size, first + 1);
      }
    }
  }

  // The record number of a chunk of a record.
  function NumberOf(records: seq<Record>, record: nat, chunk: nat, size: nat): nat
    requires size > 0 && record < |records|
  {
    if record == 0 then chunk + 1
    else ChunkCount(records[0].message, size) + NumberOf(records[1..], record - 1, chunk, size)
  }

  function TotalPages(records: seq<Record>, size: nat): nat
    requires size > 0
  {
    if records == [] then 0 else ChunkCount(records[0].message, size) + TotalPages(records[1..], size)
  }

  /**
   Record numbers from 1 to the number of pages correspond one to one to the chunks of the stored
   records; every other number finds nothing.
   */
  lemma {:induction false} NumbersMatchChunks(records: seq<Record>, position: nat, size: nat)
    requires size > 0 && position > 0
    ensures Locate(records, position, size).At? <==> position <= TotalPages(records, size)
    ensures var l := Locate(records, position, size);
            l.At? ==> l.record < |records| && NumberOf(records, l.record, l.chunk, size) == position
  {
    hide ChunkCount;
    if records != [] && position > ChunkCount(records[0].message, size) {
      NumbersMatchChunks(records[1..], position - ChunkCount(records[0].message, size), size);
    }
  }

  lemma {:induction false} ChunksHaveNumbers(records: seq<Record>, record: nat, chunk: nat, size: nat)
    requires size > 0 && record < |records| && chunk < ChunkCount(records[record].message, size)
    ensures NumberOf(records, record, chunk, size) > 0
    ensures Locate(records, NumberOf(records, record, chunk, size), size) == At(record, chunk)
  {
    hide ChunkCount;
    if record > 0 {
      ChunksHaveNumbers(records[1..], record - 1, chunk, size);
    }
  }

  // ---- Reading everything ----

  function AllText(records: seq<Record>): string {
    if records == [] then "" else records[0].message + AllText(records[1..])
  }

  function PageText(pages: seq<Page>): string {
    if pages == [] then "" else pages[0].text + PageText(pages[1..])
  }

  lemma {:induction false} PageTextJoined(a: seq<Page>, b: seq<Page>)
    ensures PageText(a + b) == PageText(a) + PageText(b)
  {
    if a == [] {
      assert a + b == b;
    } else {
      assert (a + b)[1..] == a[1..] + b;
      PageTextJoined(a[1..], b);
    }
  }

  lemma {:induction false} PagesOfText(chunks: seq<string>, record: nat, pages: seq<Page>)
    requires |pages| == |chunks| && forall k :: 0 <= k < |chunks| ==> pages[k].text == chunks[k]
    ensures PageText(pages) == Join(chunks)
  {
    if chunks != [] {
      PagesOfText(chunks[1..], record, pages[1..]);
    }
  }

  lemma {:induction false} PagesKeepText(records: seq<Record>, size: nat, first: nat)
    requires size > 0
    ensures PageText(Pages(records, size, first)) == AllText(records)
  {
    hide FromFront;
    if records != [] {
      var chunks := Chunks(records[0].message, size);
      FromFrontPartitions(records[0].message, size);
      PagesOfText(chunks, first, PagesOf(chunks, first));
      PageTextJoined(PagesOf(chunks, first), Pages(records[1..], size, first + 1));
      PagesKeepText(records[1..], size, first + 1);
    }
  }

  // A record number is a signed 16-bit integer.
  const MAX_RECORD_NUMBER := 32767

  // What calls with the record numbers from `n` on return, up to the first no-data or the last number.
  function ReadOn(d: Diagnostics, n: nat, bufferLength: int): string
    requires n > 1 && d.chunkSize > 0
    decreases MAX_RECORD_NUMBER + 1 - n
  {
    if n > MAX_RECORD_NUMBER then ""
    else
      var (next, result) := GetDiagRec(d, n, bufferLength);
      if result.Retrieved? then result.text + ReadOn(next, n + 1, bufferLength) else ""
  }

  function ReadAll(d: Diagnostics, bufferLength: int): string {
    var (next, result) := GetDiagRec(d, 1, bufferLength);
    if result.Retrieved? then result.text + ReadOn(next, 2, bufferLength) else ""
  }

  lemma ShortEnough(message: string, chunk: nat, size: nat)
    requires size > 0
    ensures |ChunkText(message, chunk, size)| <= size
  {
  }

  lemma {:induction false} ReadOnPages(d: Diagnostics, n: nat, bufferLength: int)
    requires 1 < n <= MAX_RECORD_NUMBER + 1 && bufferLength > 1 && d.chunkSize == bufferLength - 1
    requires n - 1 <= |Pages(d.records, d.chunkSize, 0)|
    ensures var pages := FirstOf(Pages(d.records, d.chunkSize, 0), MAX_RECORD_NUMBER);
            n - 1 <= |pages| && ReadOn(d, n, bufferLength) == PageText(pages[n - 1..])
    decreases MAX_RECORD_NUMBER + 1 - n
  {
    hide Locate, Pages, ChunkText;
    var all := Pages(d.records, d.chunkSize, 0);
    var pages := FirstOf(all, MAX_RECORD_NUMBER);
    LocateIsPage(d.records, n, d.chunkSize, 0);
    var l := Locate(d.records, n, d.chunkSize);
    if n <= MAX_RECORD_NUMBER && l.At? {
      ShortEnough(d.records[l.record].message, l.chunk, d.chunkSize);
      assert pages[n - 1] == all[n - 1] && pages[n - 1..][1..] == pages[n..];
      ReadOnPages(d, n + 1, bufferLength);
    }
  }

  // The pages whose numbers fit 16 bits are read.
  lemma ReadAllPages(d: Diagnostics, bufferLength: int)
    requires bufferLength > 1
    ensures ReadAll(d, bufferLength) == PageText(FirstOf(Pages(d.records, bufferLength - 1, 0), MAX_RECORD_NUMBER))
  {
    hide Locate, Pages, ChunkText, ReadOn;
    var size: nat := bufferLength - 1;
    var pages := Pages(d.records, size, 0);
    LocateIsPage(d.records, 1, size, 0);
    var l := Locate(d.records, 1, size);
    if l.At? {
      ShortEnough(d.records[l.record].message, l.chunk, size);
      ReadOnPages(d.(chunkSize := size), 2, bufferLength);
    }
  }

  /**
   Calling with the record numbers 1, 2, 3, ... and one buffer size above one byte, until there is no
   more data, returns the stored messages one after the other, if and only if no text is left on
   pages behind the largest 16-bit number. With fewer pages nothing is ever lost.
   */
  lemma PagingLosesNothing(d: Diagnostics, bufferLength: int)
    requires bufferLength > 1
    ensures var pages := Pages(d.records, bufferLength - 1, 0);
            && (|pages| <= MAX_RECORD_NUMBER ==> ReadAll(d, bufferLength) == AllText(d.records))
            && (|pages| > MAX_RECORD_NUMBER ==>
                  (ReadAll(d, bufferLength) == AllText(d.records) <==> PageText(pages[MAX_RECORD_NUMBER..]) == ""))
  {
    hide Pages, ReadAll, PageText;
    var pages := Pages(d.records, bufferLength - 1, 0);
    ReadAllPages(d, bufferLength);
    PagesKeepText(d.records, bufferLength - 1, 0);
    if |pages| > MAX_RECORD_NUMBER {
      var read, rest := pages[..MAX_RECORD_NUMBER], pages[MAX_RECORD_NUMBER..];
      assert pages == read + rest;
      PageTextJoined(read, rest);
      assert PageText(rest) == "" ==> PageText(read) + PageText(rest) == PageText(read);
    }
  }

  /**
   Which record, which part of its message, and how much of it one call returns: the record number is
   an index into the pages, and the call describes the record of that page with its own SQLSTATE and
   native error, the length of the page, and as much of its text as the buffer takes beside the
   terminator. A number behind the last page finds nothing.
   */
  lemma RetrievedIsPage(d: Diagnostics, recordNumber: nat, bufferLength: int)
    requires recordNumber >= 1
    ensures var (next, result) := GetDiagRec(d, recordNumber, bufferLength);
            && next.chunkSize > 0
            && var pages := Pages(d.records, next.chunkSize, 0);
            && (recordNumber > |pages| ==> result == NoData)
            && (recordNumber <= |pages| ==>
                  var page := pages[recordNumber - 1];
                  && page.record < |d.records| && result.Retrieved?
                  && result.sqlstate == d.records[page.record].sqlstate
                  && result.nativeError == d.records[page.record].nativeError
                  && result.textLength == |page.text| && result.text <= page.text
                  && (result.text == page.text <==> |page.text| < bufferLength || page.text == "")
                  && (|page.text| >= bufferLength > 0 ==> |result.text| == bufferLength - 1)
                  && (bufferLength <= 0 ==> result.text == "")
                  && (result.truncated <==> result.text != page.text))
  {
    hide Pages, Locate, ChunkText;
    var size := NegotiatedSize(d.chunkSize, recordNumber, bufferLength);
    LocateIsPage(d.records, recordNumber, size, 0);
  }

  /**
   The size of the pages is agreed on by the last call for record 1 whose buffer held any text, or by
   the first call for a later record when there was none; every other call keeps it.
   */
  lemma PageSizeIsAgreed(d: Diagnostics, recordNumber: nat, bufferLength: int)
    requires recordNumber >= 1
    ensures var size := GetDiagRec(d, recordNumber, bufferLength).0.chunkSize;
            && (size != d.chunkSize ==> recordNumber == 1 || d.chunkSize == 0)
            && (bufferLength > 1 && (recordNumber == 1 || d.chunkSize == 0) ==> size == bufferLength - 1)
            && (bufferLength <= 1 ==> size == if d.chunkSize > 0 then d.chunkSize else 511)
  {
  }

  /** A record number below 1 is refused and agrees on nothing. */
  lemma InvalidExactlyBelowOne(d: Diagnostics, recordNumber: int, bufferLength: int)
    ensures GetDiagRec(d, recordNumber, bufferLength).1 == InvalidNumber <==> recordNumber < 1
    ensures recordNumber < 1 ==> GetDiagRec(d, recordNumber, bufferLength).0 == d
  {
  }

  /** Asking again gives the same answer, and retrieving never changes the stored records. */
  lemma RetrievalIsIdempotent(d: Diagnostics, recordNumber: int, bufferLength: int)
    ensures var (next, result) := GetDiagRec(d, recordNumber, bufferLength);
            next.records == d.records && GetDiagRec(next, recordNumber, bufferLength) == (next, result)
  {
  }
}

/** The record store embedded in every handle, and SQLGetDiagRec on it. */
module DiagnosticHandle {
  import opened Blocks
  import opened DiagnosticPaging
  import opened Options

  class DiagnosticRecords {
    const records: array<Record>
    var recordCount: nat
    var pagingChunkSize: nat

    ghost predicate Valid()
      reads this
    {
      records.Length == MAX_DIAGNOSTIC_RECORDS && recordCount <= records.Length
    }

    ghost function View(): Diagnostics
      reads this, records
      requires Valid()
    {
      Diagnostics(records[..recordCount], pagingChunkSize)
    }

    constructor ()
      ensures Valid() && fresh(records) && View() == Diagnostics([], 0)
    {
      records := new Record[MAX_DIAGNOSTIC_RECORDS](_ => Record("00000", 0, ""));
      recordCount, pagingChunkSize := 0, 0;
    }

    // Forgets the records and the chunk size agreed on with the last reader.
    method Clear()
      requires Valid()
      modifies this, records
      ensures Valid() && View() == Diagnostics([], 0)
    {
      for index := 0 to recordCount
        invariant Valid() && recordCount == old(recordCount)
      {
        records[index] := records[index].(message := "");
      }
      recordCount, pagingChunkSize := 0, 0;
    }

    // A record that finds no room is dropped.
    method AddRecord(sqlstate: Option<string>, nativeError: int, message: Option<string>) returns (added: bool)
      requires Valid()
      modifies this`recordCount, records
      ensures Valid() && (added <==> old(recordCount) < MAX_DIAGNOSTIC_RECORDS)
      ensures var state := if sqlstate.Some? then FirstOf(sqlstate.value, SQLSTATE_LENGTH) else "00000";
              var text := if message.Some? then message.value else "";
              View() == if added then old(View()).(records := old(View()).records + [Record(state, nativeError, text)])
                        else old(View())
    {
      if recordCount >= MAX_DIAGNOSTIC_RECORDS {
        return false;
      }
      var state := "00000";
      if sqlstate.Some? {
        state := FirstOf(sqlstate.value, SQLSTATE_LENGTH);
      }
      records[recordCount] := Record(state, nativeError, if message.Some? then message.value else "");
      recordCount := recordCount + 1;
      return true;
    }

    method GetRecord(recordNumber: int) returns (found: bool, record: Record)
      requires Valid()
      ensures found <==> 1 <= recordNumber <= recordCount
      ensures found ==> record == View().records[recordNumber - 1]
    {
      var index := recordNumber - 1;
      if index < 0 || index >= recordCount {
        return false, Record("", 0, "");
      }
      return true, records[index];
    }

    method GetDiagRec(recordNumber: int, bufferLength: int) returns (retrieved: Retrieved)
      requires Valid()
      modifies this`pagingChunkSize
      ensures Valid() && (View(), retrieved) == DiagnosticPaging.GetDiagRec(old(View()), recordNumber, bufferLength)
    {
      hide ChunkCount, ChunkText, Locate;
      if recordNumber < 1 {
        return InvalidNumber;
      }
      var chunkSize := pagingChunkSize;
      if chunkSize == 0 || recordNumber == 1 {
        if bufferLength > 1 {
          chunkSize := bufferLength - 1;
        } else if chunkSize == 0 {
          chunkSize := DEFAULT_PAGE_SIZE;
        }
        pagingChunkSize := chunkSize;
      }
      LocateInRange(View().records, recordNumber, chunkSize);
      var location := LocateChunk(recordNumber, chunkSize);
      if location.Nowhere? {
        return NoData;
      }
      var found, record := GetRecord(location.record + 1);
      retrieved := SliceChunk(record, location.chunk, chunkSize, bufferLength);
    }

    method SliceChunk(record: Record, chunk: nat, chunkSize: nat, bufferLength: int) returns (retrieved: Retrieved)
      ensures retrieved == DeliverChunk(record, chunk, chunkSize, bufferLength)
    {
      var chunkOffset, chunkLength := chunk * chunkSize, 0;
      if chunkOffset < |record.message| {
        chunkLength := |record.message| - chunkOffset;
        if chunkLength > chunkSize {
          chunkLength := chunkSize;
        }
        assert record.message[chunkOffset..chunkOffset + chunkLength] == ChunkText(record.message, chunk, chunkSize);
      }
      var bytesWritten := 0;
      if bufferLength > 0 {
        bytesWritten := if chunkLength > bufferLength - 1 then bufferLength - 1 else chunkLength;
      }
      var text := "";
      if bytesWritten > 0 {
        text := record.message[chunkOffset..chunkOffset + bytesWritten];
        assert text == record.message[chunkOffset..chunkOffset + chunkLength][..bytesWritten];
      }
      retrieved := Retrieved(record.sqlstate, record.nativeError, text, chunkLength, bytesWritten < chunkLength);
    }

    method LocateChunk(recordNumber: nat, chunkSize: nat) returns (location: Location)
      requires Valid() && recordNumber > 0 && chunkSize > 0
      ensures location == Locate(View().records, recordNumber, chunkSize)
    {
      hide ChunkCount;
      var recordIndex, remainingPosition := 0, recordNumber;
      ghost var all := View().records;
      while recordIndex < recordCount
        invariant 0 <= recordIndex <= recordCount && remainingPosition > 0
        invariant Locate(all, recordNumber, chunkSize)
                  == Offset(Locate(all[recordIndex..], remainingPosition, chunkSize), recordIndex)
      {
        var chunkCount := ChunkCount(records[recordIndex].message, chunkSize);
        assert all[recordIndex..][0] == all[recordIndex] && all[recordIndex..][1..] == all[recordIndex + 1..];
        if remainingPosition <= chunkCount {
          return Location.At(recordIndex, remainingPosition - 1);
        }
        remainingPosition := remainingPosition - chunkCount;
        recordIndex := recordIndex + 1;
      }
      return Nowhere;
    }
  }

  function Offset(location: Location, skipped: nat): Location {
    match location
    case Nowhere => Nowhere
    case At(record, chunk) => Location.At(record + skipped, chunk)
  }
}
