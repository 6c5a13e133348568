/** What the Claude adapter writes, entity by entity and block by block. */
module ClaudeLaws {
  import opened Wrappers
  import opened Items
  import opened Text
  import opened Claude

  /** Exactly the ampersand and the two angle brackets are replaced, each by its entity. */
  lemma {:induction false} EscapeMeaning(a: string, c: char, b: string)
    ensures EscapeXml("") == ""
    ensures EscapeXml(a + [c] + b)
         == EscapeXml(a)
            + (match c case '&' => "&amp;" case '<' => "&lt;" case '>' => "&gt;" case _ => [c])
            + EscapeXml(b)
  {
    EscapeAppend(a + [c], b);
    EscapeAppend(a, [c]);
    EscapeOfOne(c);
  }

  lemma {:induction false} Onto(whole: string, first: string, rest: string, more: string, last: string)
    requires whole == first + more && more == rest + last
    ensures whole == (first + rest) + last
  {
  }

  lemma {:induction false} NothingMore(last: string)
    ensures last + "" == last && "" + last == last
  {
  }

  lemma {:induction false} LastOne(blocks: seq<Row>, i: nat)
    requires i + 1 == |blocks|
    ensures DocumentsFrom(blocks, i) == Document(blocks[i], i + 1)
  {
    NothingMore(Document(blocks[i], i + 1));
  }

  lemma {:induction false} DocumentsSnoc(blocks: seq<Row>, last: Row, i: nat)
    requires i <= |blocks|
    ensures DocumentsFrom(blocks + [last], i) == DocumentsFrom(blocks, i) + Document(last, |blocks| + 1)
    decreases |blocks| - i
  {
    var all, own := blocks + [last], Document(last, |blocks| + 1);
    if i == |blocks| {
      LastOne(all, i);
      NothingMore(own);
    } else {
      DocumentsSnoc(blocks, last, i + 1);
      Onto(DocumentsFrom(all, i), Document(blocks[i], i + 1), DocumentsFrom(blocks, i + 1),
           DocumentsFrom(all, i + 1), own);
    }
  }

  /** Blocks are numbered from 1; source and tags have a line of their own only when there are any. */
  lemma {:induction false} LastDocument(blocks: seq<Row>, last: Row)
    ensures Formatted([]) == "<documents></documents>\n"
    ensures Formatted(blocks + [last])
         == "<documents>\n"
            + (DocumentsFrom(blocks, 0)
               + ("<document index=\"" + Decimal(|blocks| + 1) + "\">\n"
                  + (if last.source == None then "" else "<source>" + EscapeXml(last.source.value) + "</source>\n")
                  + (if last.tags == [] then "" else "<tags>" + EscapeXml(Join(last.tags, ", ")) + "</tags>\n")
                  + "<document_content>\n" + (EscapeXml(last.content) + "\n") + "</document_content>\n"
                  + "</document>\n")
               + "</documents>\n")
  {
    DocumentsSnoc(blocks, last, 0);
  }
}
