/** The `Document` entity (domain/models.py): the name, extracted text,
    tables and source path of a processed PDF, with the validation its
    constructor performs and its derived counts. */
module Models {
  import opened Wrappers
  import opened PyText

  /** A table in its simplest supported form, rows of cells. */
  datatype Table = Table(rows: seq<seq<string>>)

  datatype Document = Document(name: string, text: string, tables: seq<Table>, source: string)

  /** Why construction is refused, in the order it is checked. */
  datatype DocumentError = EmptyName | MissingText

  /** `Document(name, text, tables, source)` followed by `__post_init__`:
      a blank name is refused first, then a missing text; missing tables
      become the empty list. Empty text is accepted. */
  function NewDocument(name: string, text: Option<string>, tables: Option<seq<Table>>, source: string)
    : (r: Result<Document, DocumentError>)
    ensures r == Err(EmptyName) <==> IsBlank(name)
    ensures r == Err(MissingText) <==> !IsBlank(name) && text.None?
    ensures r.Ok? <==> !IsBlank(name) && text.Some?
    ensures r.Ok? ==> r.value.name == name && r.value.text == text.value && r.value.source == source
    ensures r.Ok? && tables.None? ==> r.value.tables == []
    ensures r.Ok? && tables.Some? ==> r.value.tables == tables.value
  {
    if name == [] || Strip(name) == [] then Err(EmptyName)
    else if text.None? then Err(MissingText)
    else
      var ts := if tables.None? then [] else tables.value;
      Ok(Document(name, text.value, ts, source))
  }

  /** `table_count`. */
  function TableCount(d: Document): (n: nat)
    ensures n == 0 <==> d.tables == []
  {
    |d.tables|
  }

  /** `has_tables`. */
  function HasTables(d: Document): (b: bool)
    ensures b <==> TableCount(d) > 0
  {
    |d.tables| > 0
  }

  /** `word_count`: the number of `str.split()` tokens, 0 for empty text. */
  function WordCount(d: Document): (n: nat)
    ensures n == 0 <==> IsBlank(d.text)
  {
    SplitEmpty(d.text);
    if d.text == [] then 0 else |Split(d.text)|
  }

  /** Text made of n tokens joined by single spaces has n words. */
  lemma WordCountOfJoined(d: Document, ws: seq<string>)
    requires forall k :: 0 <= k < |ws| ==> IsToken(ws[k])
    requires d.text == Join(" ", ws)
    ensures WordCount(d) == |ws|
  {
    SplitJoin(ws);
  }

  /** A document built without tables has none. */
  lemma NewDocumentWithoutTables(name: string, text: string, source: string)
    requires !IsBlank(name)
    ensures NewDocument(name, Some(text), None, source).Ok?
    ensures !HasTables(NewDocument(name, Some(text), None, source).value)
  {
  }
}
