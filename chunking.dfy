/**
 * Recipe ingestion (embedd_data/embedding_json.py): every recipe record
 * becomes a name document, one steps document per piece the text splitter
 * returns, and a nutrition document; the documents are then projected into
 * the parallel `texts` and `metadatas` lists handed to the vector store.
 *
 * The splitter (`RecursiveCharacterTextSplitter.split_text`) is a library
 * call and stays uninterpreted: it is the parameter `split`.
 */
module Chunking {
  import opened Text

  /** One `nutrient: value` entry of a record's `nutrients` object, in iteration order. */
  datatype Nutrient = Nutrient(nutrient: string, value: string)

  /** One element of the recipe JSON array. */
  datatype Recipe = Recipe(name: string, steps: seq<string>, nutrients: seq<Nutrient>)

  /**
   * The metadata dictionary `{"id": id, "type": kind}` every document
   * carries; it always has exactly these two string keys.
   */
  datatype Metadata = Metadata(id: string, kind: string)

  /** A LangChain `Document`: page text and its metadata. */
  datatype Document = Document(pageContent: string, metadata: Metadata)

  const NameType: string := "name"
  const StepsType: string := "steps"
  const NutritionType: string := "nutrition"

  predicate HasType(d: Document, kind: string)
  {
    d.metadata.kind == kind
  }

  predicate HasId(d: Document, id: string)
  {
    d.metadata.id == id
  }

  /** Number of documents whose `type` is `kind`. */
  function CountType(docs: seq<Document>, kind: string): nat
    decreases |docs|
  {
    if |docs| == 0 then 0
    else (if HasType(docs[0], kind) then 1 else 0) + CountType(docs[1..], kind)
  }

  // ---------------------------------------------------------------------------
  // format_nutrients

  function Header(name: string): string
  {
    "Nutrition Facts for " + name + ":"
  }

  function NutrientLine(n: Nutrient): string
  {
    "- " + n.nutrient + ": " + n.value
  }

  /** The `lines` list `format_nutrients` builds: the header, then one line per entry. */
  function NutritionLines(name: string, nutrients: seq<Nutrient>): seq<string>
  {
    [Header(name)] + seq(|nutrients|, i requires 0 <= i < |nutrients| => NutrientLine(nutrients[i]))
  }

  /** The text `format_nutrients` returns. */
  function NutritionText(name: string, nutrients: seq<Nutrient>): string
  {
    Join("\n", NutritionLines(name, nutrients))
  }

  /** `format_nutrients`: collects the lines in a loop and joins them with newlines. */
  method FormatNutrients(name: string, nutrients: seq<Nutrient>) returns (text: string)
    ensures text == NutritionText(name, nutrients)
    ensures IsPrefix(Header(name), text)
  {
    var lines := [Header(name)];
    for i := 0 to |nutrients|
      invariant lines == NutritionLines(name, nutrients[..i])
    {
      lines := lines + [NutrientLine(nutrients[i])];
      assert lines == NutritionLines(name, nutrients[..i + 1]);
    }
    assert nutrients[..|nutrients|] == nutrients;
    text := Join("\n", lines);
    JoinStartsWithFirst("\n", lines);
  }

  /** A join always begins with its first part. */
  lemma {:induction false} JoinStartsWithFirst(sep: string, parts: seq<string>)
    requires |parts| > 0
    ensures IsPrefix(parts[0], Join(sep, parts))
  {
    if |parts| > 1 {
      assert Join(sep, parts) == parts[0] + (sep + Join(sep, parts[1..]));
    }
  }

  /**
   * When no name, nutrient or value contains a newline, the nutrition text
   * reads back as exactly 1 + |nutrients| lines: the header first, then
   * each entry's line in order.
   */
  lemma NutritionTextLines(name: string, nutrients: seq<Nutrient>)
    requires '\n' !in name
    requires forall i :: 0 <= i < |nutrients| ==> '\n' !in nutrients[i].nutrient && '\n' !in nutrients[i].value
    ensures |Split(NutritionText(name, nutrients), '\n')| == 1 + |nutrients|
    ensures Split(NutritionText(name, nutrients), '\n')[0] == Header(name)
    ensures forall i :: 0 <= i < |nutrients| ==>
              Split(NutritionText(name, nutrients), '\n')[i + 1] == NutrientLine(nutrients[i])
  {
    var lines := NutritionLines(name, nutrients);
    forall i | 0 <= i < |lines|
      ensures '\n' !in lines[i]
    {
      if i > 0 {
        var n := nutrients[i - 1];
        assert lines[i] == "- " + n.nutrient + ": " + n.value;
      }
    }
    SplitJoin(lines, '\n');
  }

  // ---------------------------------------------------------------------------
  // The ingestion loop

  function NameDoc(r: Recipe): Document
  {
    Document("Recipe Name: " + r.name, Metadata(r.name, NameType))
  }

  /** `"\n".join(item["steps"])`, the text handed to the splitter. */
  function StepsText(r: Recipe): string
  {
    Join("\n", r.steps)
  }

  function StepDocs(name: string, pieces: seq<string>): seq<Document>
  {
    seq(|pieces|, i requires 0 <= i < |pieces| => Document(pieces[i], Metadata(name, StepsType)))
  }

  function NutritionDoc(r: Recipe): Document
  {
    Document(NutritionText(r.name, r.nutrients), Metadata(r.name, NutritionType))
  }

  /** The documents one record contributes, in the order the loop appends them. */
  function RecipeDocs(r: Recipe, split: string -> seq<string>): seq<Document>
  {
    [NameDoc(r)] + StepDocs(r.name, split(StepsText(r))) + [NutritionDoc(r)]
  }

  /** The `docs` list after the loop has processed every record of `data`. */
  function AllDocs(data: seq<Recipe>, split: string -> seq<string>): seq<Document>
    decreases |data|
  {
    if |data| == 0 then []
    else AllDocs(data[..|data| - 1], split) + RecipeDocs(data[|data| - 1], split)
  }

  /** Number of documents one record contributes: name, pieces, nutrition. */
  function ChunkCount(r: Recipe, split: string -> seq<string>): nat
  {
    2 + |split(StepsText(r))|
  }

  /** The sum over the records of their chunk counts. */
  function TotalChunks(data: seq<Recipe>, split: string -> seq<string>): nat
    decreases |data|
  {
    if |data| == 0 then 0 else ChunkCount(data[0], split) + TotalChunks(data[1..], split)
  }

  /**
   * The ingestion loop: walks the records in order and only ever appends to
   * `docs`, first the name document, then the step pieces, then the
   * nutrition document.
   */
  method Ingest(data: seq<Recipe>, split: string -> seq<string>) returns (docs: seq<Document>)
    ensures docs == AllDocs(data, split)
    ensures |docs| == TotalChunks(data, split)
  {
    docs := [];
    for k := 0 to |data|
      invariant docs == AllDocs(data[..k], split)
    {
      var item := data[k];
      var recipeName := item.name;
      ghost var before := docs;

      docs := docs + [Document("Recipe Name: " + recipeName, Metadata(recipeName, NameType))];

      var stepsText := Join("\n", item.steps);
      var stepChunks := split(stepsText);
      docs := AppendStepDocs(docs, recipeName, stepChunks);

      var nutriText := FormatNutrients(recipeName, item.nutrients);
      docs := docs + [Document(nutriText, Metadata(recipeName, NutritionType))];
      ghost var steps := StepDocs(recipeName, stepChunks);
      AppendAssoc(before + [NameDoc(item)], steps, [NutritionDoc(item)]);
      AppendAssoc(before, [NameDoc(item)], steps + [NutritionDoc(item)]);
      AppendAssoc([NameDoc(item)], steps, [NutritionDoc(item)]);
      AllDocsStep(data, k, split);
    }
    assert data[..|data|] == data;
    DocsLength(data, split);
  }

  /** Processing record k after records 0 to k-1 appends its documents. */
  lemma AllDocsStep(data: seq<Recipe>, k: nat, split: string -> seq<string>)
    requires k < |data|
    ensures AllDocs(data[..k + 1], split) == AllDocs(data[..k], split) + RecipeDocs(data[k], split)
  {
    assert data[..k + 1][..k] == data[..k];
  }

  /** The inner loop: one `steps` document per piece, appended in piece order. */
  method AppendStepDocs(docs: seq<Document>, name: string, pieces: seq<string>) returns (result: seq<Document>)
    ensures result == docs + StepDocs(name, pieces)
  {
    result := docs;
    for j := 0 to |pieces|
      invariant result == docs + StepDocs(name, pieces[..j])
    {
      result := result + [Document(pieces[j], Metadata(name, StepsType))];
      assert StepDocs(name, pieces[..j + 1]) == StepDocs(name, pieces[..j]) + [Document(pieces[j], Metadata(name, StepsType))];
    }
    assert pieces[..|pieces|] == pieces;
  }

  /** Processing two batches of records one after the other is processing their concatenation. */
  lemma {:induction false} AllDocsAppend(a: seq<Recipe>, b: seq<Recipe>, split: string -> seq<string>)
    ensures AllDocs(a + b, split) == AllDocs(a, split) + AllDocs(b, split)
    decreases |b|
  {
    if |b| > 0 {
      var b' := b[..|b| - 1];
      assert (a + b)[..|a + b| - 1] == a + b';
      AllDocsAppend(a, b', split);
    } else {
      assert a + b == a;
    }
  }

  lemma RecipeDocsLength(r: Recipe, split: string -> seq<string>)
    ensures |RecipeDocs(r, split)| == ChunkCount(r, split)
  {
  }

  /** `|docs|` is the sum over the records of 2 + the number of step pieces. */
  lemma {:induction false} DocsLength(data: seq<Recipe>, split: string -> seq<string>)
    ensures |AllDocs(data, split)| == TotalChunks(data, split)
    decreases |data|
  {
    if |data| > 0 {
      DocsLength(data[1..], split);
      AllDocsAppend([data[0]], data[1..], split);
      assert [data[0]] + data[1..] == data;
      assert [data[0]][..0] == [];
      assert AllDocs([data[0]], split) == RecipeDocs(data[0], split);
    }
  }

  /**
   * The layout of one record's documents: the name document first, then
   * one `steps` document per piece of the split steps text, in piece
   * order, then the nutrition document last; all carry the record's name
   * as `id`.
   */
  lemma RecipeDocsLayout(r: Recipe, split: string -> seq<string>)
    ensures var docs, pieces := RecipeDocs(r, split), split(StepsText(r));
      && |docs| == 2 + |pieces|
      && docs[0].pageContent == "Recipe Name: " + r.name
      && HasType(docs[0], NameType)
      && (forall i :: 0 <= i < |pieces| ==>
            docs[i + 1].pageContent == pieces[i] && HasType(docs[i + 1], StepsType))
      && docs[|docs| - 1].pageContent == NutritionText(r.name, r.nutrients)
      && HasType(docs[|docs| - 1], NutritionType)
      && (forall i :: 0 <= i < |docs| ==> HasId(docs[i], r.name))
  {
    var docs, pieces := RecipeDocs(r, split), split(StepsText(r));
    var steps := StepDocs(r.name, pieces);
    forall i | 0 <= i < |docs|
      ensures HasId(docs[i], r.name)
      ensures 0 < i <= |pieces| ==> docs[i] == steps[i - 1]
    {
      if 0 < i <= |pieces| {
        assert docs[i] == steps[i - 1];
      }
    }
  }

  lemma {:induction false} CountTypeAppend(a: seq<Document>, b: seq<Document>, kind: string)
    ensures CountType(a + b, kind) == CountType(a, kind) + CountType(b, kind)
    decreases |a|
  {
    if |a| > 0 {
      assert (a + b)[1..] == a[1..] + b;
      CountTypeAppend(a[1..], b, kind);
    } else {
      assert a + b == b;
    }
  }

  lemma {:induction false} StepDocsTypes(name: string, pieces: seq<string>)
    ensures CountType(StepDocs(name, pieces), NameType) == 0
    ensures CountType(StepDocs(name, pieces), NutritionType) == 0
    ensures CountType(StepDocs(name, pieces), StepsType) == |pieces|
    decreases |pieces|
  {
    if |pieces| > 0 {
      StepDocsTypes(name, pieces[1..]);
      assert StepDocs(name, pieces)[1..] == StepDocs(name, pieces[1..]);
      assert StepDocs(name, pieces)[0] == Document(pieces[0], Metadata(name, StepsType));
    }
  }

  /** Each record contributes exactly one name document, exactly one nutrition document and one steps document per piece. */
  lemma RecipeDocsTypes(r: Recipe, split: string -> seq<string>)
    ensures CountType(RecipeDocs(r, split), NameType) == 1
    ensures CountType(RecipeDocs(r, split), NutritionType) == 1
    ensures CountType(RecipeDocs(r, split), StepsType) == |split(StepsText(r))|
  {
    var steps := StepDocs(r.name, split(StepsText(r)));
    StepDocsTypes(r.name, split(StepsText(r)));
    CountTypeAppend([NameDoc(r)], steps, NameType);
    CountTypeAppend([NameDoc(r)] + steps, [NutritionDoc(r)], NameType);
    CountTypeAppend([NameDoc(r)], steps, NutritionType);
    CountTypeAppend([NameDoc(r)] + steps, [NutritionDoc(r)], NutritionType);
    CountTypeAppend([NameDoc(r)], steps, StepsType);
    CountTypeAppend([NameDoc(r)] + steps, [NutritionDoc(r)], StepsType);
  }

  /** Over all records: as many name and nutrition documents as records. */
  lemma {:induction false} AllDocsTypes(data: seq<Recipe>, split: string -> seq<string>)
    ensures CountType(AllDocs(data, split), NameType) == |data|
    ensures CountType(AllDocs(data, split), NutritionType) == |data|
    decreases |data|
  {
    if |data| > 0 {
      var init := data[..|data| - 1];
      AllDocsTypes(init, split);
      RecipeDocsTypes(data[|data| - 1], split);
      CountTypeAppend(AllDocs(init, split), RecipeDocs(data[|data| - 1], split), NameType);
      CountTypeAppend(AllDocs(init, split), RecipeDocs(data[|data| - 1], split), NutritionType);
    }
  }

  /**
   * Records keep their input order: record k's documents sit, contiguous,
   * right after the documents of records 0 .. k-1.
   */
  lemma RecordPosition(data: seq<Recipe>, split: string -> seq<string>, k: nat)
    requires k < |data|
    ensures var off := |AllDocs(data[..k], split)|;
      && off + ChunkCount(data[k], split) <= |AllDocs(data, split)|
      && AllDocs(data, split)[off..off + ChunkCount(data[k], split)] == RecipeDocs(data[k], split)
  {
    assert data == data[..k] + ([data[k]] + data[k + 1..]);
    AllDocsAppend(data[..k], [data[k]] + data[k + 1..], split);
    AllDocsAppend([data[k]], data[k + 1..], split);
    assert [data[k]][..0] == [];
    assert AllDocs([data[k]], split) == RecipeDocs(data[k], split);
  }

  // ---------------------------------------------------------------------------
  // The texts / metadatas projection

  /** `[doc.page_content for doc in docs]` */
  function Texts(docs: seq<Document>): (texts: seq<string>)
    ensures |texts| == |docs|
  {
    seq(|docs|, i requires 0 <= i < |docs| => docs[i].pageContent)
  }

  /** `[doc.metadata for doc in docs]` */
  function Metadatas(docs: seq<Document>): (metadatas: seq<Metadata>)
    ensures |metadatas| == |docs|
  {
    seq(|docs|, i requires 0 <= i < |docs| => docs[i].metadata)
  }

  /** Reassembles documents from parallel text and metadata lists. */
  function Zip(texts: seq<string>, metadatas: seq<Metadata>): (docs: seq<Document>)
    requires |texts| == |metadatas|
    ensures |docs| == |texts|
  {
    seq(|texts|, i requires 0 <= i < |texts| => Document(texts[i], metadatas[i]))
  }

  /** The two lists are index-aligned: entry i of each comes from `docs[i]`, so zipping them back loses nothing. */
  lemma ProjectionAligned(docs: seq<Document>)
    ensures |Texts(docs)| == |Metadatas(docs)| == |docs|
    ensures Zip(Texts(docs), Metadatas(docs)) == docs
  {
  }
}
