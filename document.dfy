/** `convert_to_json_string`: one index-mutation command in the JSON text
    the converter writes, and a reader for that text as its partner. */
module Document {
  import opened Strings

  // The fixed text of the template, cut where a value is inserted. Each
  // piece is written as its first character and the rest, which is all the
  // proofs below need to know of it.
  const Head := "\n" + "  {\n    \"type\": \"PUT\",\n    \"document\": {\n      \"id\": \""
  const AfterId := "\"" + ",\n      \"fields\": {\n        \"year\": \""
  const AfterYear := "\"" + ",\n        \"authors\": \""
  const AfterAuthors := "\"" + ",\n        \"title\": \""
  const Tail := "\"" + "\n      }\n    }\n  }"

  /** `convert_to_json_string`: the document template filled in; the values are inserted verbatim, and only a document that is not the
      first of its batch starts with a comma. */
  function Encode(year: string, isFirst: bool, id: string, authors: string, title: string): (doc: string)
    ensures doc != []
    ensures doc[0] == ',' <==> !isFirst
  {
    var body := Body(year, id, authors, title);
    (if isFirst then "" else ",") + body
  }

  /** The template without the comma. */
  function Body(year: string, id: string, authors: string, title: string): (body: string)
    ensures body != [] && body[0] == '\n'
  {
    assert |Head| > 0 && Head[0] == '\n';
    Head + (id + (AfterId + (year + (AfterYear + (authors + (AfterAuthors + (title + Tail)))))))
  }

  /** The first and the later form of a document differ by the comma only. */
  lemma EncodeCommaOnly(year: string, id: string, authors: string, title: string)
    ensures Encode(year, false, id, authors, title) == "," + Encode(year, true, id, authors, title)
  {
    var body := Body(year, id, authors, title);
    assert "" + body == body;
  }

  datatype DocValues = DocValues(isFirst: bool, year: string, id: string, authors: string, title: string)

  /** The longest prefix without a double quote. */
  function UpToQuote(s: string): (p: string)
    ensures |p| <= |s| && p == s[..|p|]
    ensures '"' !in p
    ensures |p| < |s| ==> s[|p|] == '"'
  {
    if s == [] || s[0] == '"' then [] else [s[0]] + UpToQuote(s[1..])
  }

  lemma UpToQuoteOf(x: string, y: string)
    requires '"' !in x
    requires y != [] && y[0] == '"'
    ensures UpToQuote(x + y) == x
  {
    assert forall i :: 0 <= i < |x| ==> (x + y)[i] == x[i];
    assert (x + y)[|x|] == '"';
  }

  /** Reads a value followed by `sep`, which starts with a double quote. */
  function ReadValue(s: string, sep: string): Option<(string, string)>
  {
    var v := UpToQuote(s);
    var rest := s[|v|..];
    if StartsWith(rest, sep) then Some((v, rest[|sep|..])) else None
  }

  lemma ReadValueOf(v: string, sep: string, rest: string)
    requires '"' !in v
    requires sep != [] && sep[0] == '"'
    ensures ReadValue(v + (sep + rest), sep) == Some((v, rest))
  {
    UpToQuoteOf(v, sep + rest);
    assert (v + (sep + rest))[|v|..] == sep + rest;
    assert (sep + rest)[..|sep|] == sep;
    assert (sep + rest)[|sep|..] == rest;
  }

  /** Reads a document back into its values; None when the text is not a
      document of the template's shape. */
  function Decode(doc: string): Option<DocValues>
  {
    var isFirst := !(doc != [] && doc[0] == ',');
    var body := if isFirst then doc else doc[1..];
    if !StartsWith(body, Head) then None
    else
      match ReadValue(body[|Head|..], AfterId)
      case None => None
      case Some((id, r1)) =>
        match ReadValue(r1, AfterYear)
        case None => None
        case Some((year, r2)) =>
          match ReadValue(r2, AfterAuthors)
          case None => None
          case Some((authors, r3)) =>
            match ReadValue(r3, Tail)
            case None => None
            case Some((title, r4)) =>
              if r4 == [] then Some(DocValues(isFirst, year, id, authors, title)) else None
  }

  /** Decoding an encoded document gives back its values, as long as none
      of them holds a double quote (which the template does not escape). */
  lemma DecodeEncode(year: string, isFirst: bool, id: string, authors: string, title: string)
    requires '"' !in year && '"' !in id && '"' !in authors && '"' !in title
    ensures Decode(Encode(year, isFirst, id, authors, title)) == Some(DocValues(isFirst, year, id, authors, title))
  {
    var doc := Encode(year, isFirst, id, authors, title);
    var body := Body(year, id, authors, title);
    assert (if isFirst then doc else doc[1..]) == body;
    var r4: string := [];
    var r3 := title + (Tail + r4);
    var r2 := authors + (AfterAuthors + r3);
    var r1 := year + (AfterYear + r2);
    var r0 := id + (AfterId + r1);
    assert Tail + r4 == Tail;
    assert body == Head + r0;
    assert body[..|Head|] == Head;
    assert body[|Head|..] == r0;
    ReadValueOf(id, AfterId, r1);
    ReadValueOf(year, AfterYear, r2);
    ReadValueOf(authors, AfterAuthors, r3);
    ReadValueOf(title, Tail, r4);
  }
}
