/** The indexed document record. Dates are timestamps on one clock, so that
    `later >= earlier` is the comparison of two datetimes. */
module DocumentRecord {
  import opened Wrappers
  import opened JsonValue

  datatype Document = Document(
    id: string,
    filePath: string,
    title: string,
    content: string,
    pageCount: int,
    fileSize: int,
    createdDate: int,
    modifiedDate: int,
    metadata: seq<(string, Json)>)

  datatype DocumentError = NegativePageCount | NegativeFileSize | ModifiedBeforeCreated

  predicate ValidDocument(d: Document) {
    d.pageCount >= 0 && d.fileSize >= 0 && d.modifiedDate >= d.createdDate
  }

  /** `Document(...)` with its `__post_init__`: page count, file size, then the dates. */
  function NewDocument(d: Document): (r: Result<Document, DocumentError>)
    ensures r.Success? <==> ValidDocument(d)
    ensures r.Success? ==> r.value == d
    ensures d.pageCount < 0 ==> r == Failure(NegativePageCount)
    ensures d.pageCount >= 0 && d.fileSize < 0 ==> r == Failure(NegativeFileSize)
    ensures d.pageCount >= 0 && d.fileSize >= 0 && d.modifiedDate < d.createdDate ==> r == Failure(ModifiedBeforeCreated)
  {
    if d.pageCount < 0 then Failure(NegativePageCount)
    else if d.fileSize < 0 then Failure(NegativeFileSize)
    else if d.modifiedDate < d.createdDate then Failure(ModifiedBeforeCreated)
    else Success(d)
  }

  /** A document modified at the moment it was created is accepted. */
  lemma SameDatesAccepted(d: Document)
    requires d.pageCount >= 0 && d.fileSize >= 0 && d.modifiedDate == d.createdDate
    ensures NewDocument(d) == Success(d)
  {
  }

  /** The tests' documents: one page of 100 bytes a second after creation is kept with its
      fields; a page count of -1 is refused. */
  lemma SampleDocuments(now: int)
    ensures NewDocument(Document("1", "/tmp/file.pdf", "Sample", "Hello", 1, 100, now, now + 1, [])).Success?
    ensures NewDocument(Document("1", "/tmp/file.pdf", "Sample", "Hello", 1, 100, now, now + 1, [])).value.pageCount == 1
    ensures NewDocument(Document("2", "/tmp/file.pdf", "Bad", "", -1, 0, now, now, [])) == Failure(NegativePageCount)
  {
  }
}
