/** The extracted content of a document: its pages of text, a title and
    free-form metadata. */
module DocumentsModels {
  import opened Wrappers
  import opened JsonValue

  datatype PageContent = PageContent(pageNumber: int, text: string)

  datatype PageError = NegativePageNumber

  /** `PageContent(...)` with its `__post_init__`. */
  function NewPageContent(pageNumber: int, text: string): (r: Result<PageContent, PageError>)
    ensures r.Success? <==> pageNumber >= 0
    ensures r.Success? ==> r.value.pageNumber == pageNumber && r.value.text == text
  {
    if pageNumber < 0 then Failure(NegativePageNumber) else Success(PageContent(pageNumber, text))
  }

  datatype DocumentContent = DocumentContent(
    filePath: string,
    title: string,
    pages: seq<PageContent>,
    metadata: seq<(string, Json)>)

  /** `DocumentContent(file_path, title)`: no pages and no metadata unless given. */
  function NewDocumentContent(filePath: string, title: string): (c: DocumentContent)
    ensures c.pages == [] && c.metadata == [] && c.title == title && c.filePath == filePath
  {
    DocumentContent(filePath, title, [], [])
  }

  /** `DocumentContent.from_text`: the whole text as the only page, page 0. */
  function FromText(filePath: string, title: string, text: string): (c: DocumentContent)
    ensures |c.pages| == 1 && c.pages[0].pageNumber == 0 && c.pages[0].text == text
    ensures c.title == title && c.filePath == filePath && c.metadata == []
    ensures forall i :: 0 <= i < |c.pages| ==> NewPageContent(c.pages[i].pageNumber, c.pages[i].text) == Success(c.pages[i])
  {
    var page := NewPageContent(0, text).value;
    DocumentContent(filePath, title, [page], [])
  }
}
