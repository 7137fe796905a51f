/**
 * The book the preprocessor rewrites, and the two pieces of `Processor::run`
 * that touch it: `handle_bookitem` (src/lib.rs:84-88), which appends the
 * footer to one chapter, and its application to every item with mdbook's
 * `Book::for_each_mut` (src/lib.rs:148). That visitor lives in mdbook, not in
 * this repository; it walks the items in order and, for a chapter, first
 * visits the chapter's sub-items and then the chapter itself.
 */
module BookTree {

  /** An mdbook chapter; only `content` is ever changed. */
  datatype Chapter = Chapter(
    name: string,
    content: string,
    number: seq<nat>,
    subItems: seq<BookItem>,
    path: string,
    parentNames: seq<string>)

  /** `BookItem`: a chapter or one of the structural items. */
  datatype BookItem = ChapterItem(chapter: Chapter) | Separator | PartTitle(title: string)

  datatype Book = Book(sections: seq<BookItem>)

  /** `handle_bookitem`: a chapter gets `footer` after its content; any other item is left as it is. */
  function HandleBookItem(item: BookItem, footer: string): (r: BookItem)
    ensures !item.ChapterItem? ==> r == item
    ensures item.ChapterItem? ==> r.ChapterItem? && r.chapter.content == item.chapter.content + footer
    ensures item.ChapterItem? ==> r.chapter.(content := item.chapter.content) == item.chapter
  {
    match item
    case ChapterItem(ch) => ChapterItem(ch.(content := ch.content + footer))
    case _ => item
  }

  /** The visitor as a reference definition: every item, sub-items before their chapter. */
  function Visit(items: seq<BookItem>, f: BookItem -> BookItem): (r: seq<BookItem>)
    ensures |r| == |items|
    decreases items
  {
    if items == [] then []
    else
      var item := items[0];
      assert item in items && (item.ChapterItem? ==> item.chapter < item);
      var visited := if item.ChapterItem?
        then ChapterItem(item.chapter.(subItems := Visit(item.chapter.subItems, f)))
        else item;
      [f(visited)] + Visit(items[1..], f)
  }

  /** The visit item by item: the item at position `k` is `f` applied to it once its sub-items are visited. */
  lemma {:induction false} VisitAt(items: seq<BookItem>, f: BookItem -> BookItem, k: nat)
    requires k < |items|
    ensures !items[k].ChapterItem? ==> Visit(items, f)[k] == f(items[k])
    ensures items[k].ChapterItem? ==>
      Visit(items, f)[k] == f(ChapterItem(items[k].chapter.(subItems := Visit(items[k].chapter.subItems, f))))
    decreases k
  {
    if k > 0 {
      VisitAt(items[1..], f, k - 1);
    }
  }

  lemma VisitAll(items: seq<BookItem>, f: BookItem -> BookItem)
    ensures forall k :: 0 <= k < |items| && !items[k].ChapterItem? ==> Visit(items, f)[k] == f(items[k])
  {
    forall k | 0 <= k < |items| && !items[k].ChapterItem?
      ensures Visit(items, f)[k] == f(items[k])
    {
      VisitAt(items, f, k);
    }
  }

  /** `for_each_mut` over a list of items, updating each in place. */
  method ForEachMut(items: seq<BookItem>, f: BookItem -> BookItem) returns (out: seq<BookItem>)
    ensures out == Visit(items, f)
    decreases items
  {
    out := items;
    var i := 0;
    while i < |items|
      invariant 0 <= i <= |items| && |out| == |items|
      invariant out[..i] + Visit(items[i..], f) == Visit(items, f)
      invariant out[i..] == items[i..]
      decreases |items| - i
    {
      var item := out[i];
      assert items[i..][0] == item;
      assert item in items && (item.ChapterItem? ==> item.chapter < item);
      if item.ChapterItem? {
        var subs := ForEachMut(item.chapter.subItems, f);
        item := ChapterItem(item.chapter.(subItems := subs));
      }
      item := f(item);
      assert items[i..][1..] == items[i + 1..];
      out := out[i := item];
      assert out[..i + 1] == out[..i] + [item];
      i := i + 1;
    }
  }

  /** The function passed to the visitor on line 148. */
  function Handler(footer: string): (h: BookItem -> BookItem)
    ensures forall item: BookItem :: h(item) == HandleBookItem(item, footer)
  {
    item => HandleBookItem(item, footer)
  }

  /**
   * What line 148 does to the book: each item keeps its place, a non-chapter
   * is unchanged, and a chapter gains the footer and has its sub-items
   * annotated in turn.
   */
  function Annotate(items: seq<BookItem>, footer: string): (r: seq<BookItem>)
    ensures |r| == |items|
    ensures forall k :: 0 <= k < |items| && !items[k].ChapterItem? ==> r[k] == items[k]
  {
    VisitAll(items, Handler(footer));
    Visit(items, Handler(footer))
  }

  /** A chapter at any position gains the footer and has its own sub-items annotated in turn. */
  lemma AnnotateAt(items: seq<BookItem>, footer: string, k: nat)
    requires k < |items| && items[k].ChapterItem?
    ensures Annotate(items, footer)[k] == ChapterItem(items[k].chapter.(
      content := items[k].chapter.content + footer,
      subItems := Annotate(items[k].chapter.subItems, footer)))
  {
    VisitAt(items, Handler(footer), k);
  }

  /** The items with every chapter's content blanked: everything except the text. */
  function Skeleton(items: seq<BookItem>): (r: seq<BookItem>)
    ensures |r| == |items|
    decreases items
  {
    if items == [] then []
    else
      var item := items[0];
      assert item in items && (item.ChapterItem? ==> item.chapter < item);
      var s := if item.ChapterItem?
        then ChapterItem(item.chapter.(content := "", subItems := Skeleton(item.chapter.subItems)))
        else item;
      [s] + Skeleton(items[1..])
  }

  /** The chapters' contents, each chapter before its sub-items. */
  function Contents(items: seq<BookItem>): seq<string>
    decreases items
  {
    if items == [] then []
    else
      var item := items[0];
      assert item in items && (item.ChapterItem? ==> item.chapter < item);
      (if item.ChapterItem? then [item.chapter.content] + Contents(item.chapter.subItems) else []) +
      Contents(items[1..])
  }

  function Suffixed(ss: seq<string>, footer: string): (r: seq<string>)
    ensures |r| == |ss|
  {
    seq(|ss|, k requires 0 <= k < |ss| => ss[k] + footer)
  }

  /** Annotating adds no item, removes none, moves none and changes nothing but chapter text. */
  lemma {:induction false} AnnotatePreservesShape(items: seq<BookItem>, footer: string)
    ensures Skeleton(Annotate(items, footer)) == Skeleton(items)
    decreases items
  {
    if items != [] {
      var item := items[0];
      assert item in items && (item.ChapterItem? ==> item.chapter < item);
      AnnotatePreservesShape(items[1..], footer);
      if item.ChapterItem? {
        AnnotatePreservesShape(item.chapter.subItems, footer);
      }
    }
  }

  /** Every chapter, nested or not, ends up with its old content followed by the footer. */
  lemma {:induction false} AnnotateExtendsEveryChapter(items: seq<BookItem>, footer: string)
    ensures Contents(Annotate(items, footer)) == Suffixed(Contents(items), footer)
    decreases items
  {
    if items != [] {
      var item := items[0];
      assert item in items && (item.ChapterItem? ==> item.chapter < item);
      AnnotateExtendsEveryChapter(items[1..], footer);
      var rest := Suffixed(Contents(items[1..]), footer);
      if item.ChapterItem? {
        AnnotateExtendsEveryChapter(item.chapter.subItems, footer);
        var subs := Suffixed(Contents(item.chapter.subItems), footer);
        assert Suffixed(Contents(items), footer) == [item.chapter.content + footer] + subs + rest;
      } else {
        assert Suffixed(Contents(items), footer) == rest;
      }
    }
  }

  /** Annotating a second time appends a second copy; nothing is deduplicated. */
  lemma {:induction false} AnnotateTwice(items: seq<BookItem>, footer: string, again: string)
    ensures Annotate(Annotate(items, footer), again) == Annotate(items, footer + again)
    decreases items
  {
    if items != [] {
      var item := items[0];
      assert item in items && (item.ChapterItem? ==> item.chapter < item);
      var once := Annotate(items, footer);
      var both := footer + again;
      assert once[1..] == Annotate(items[1..], footer);
      assert Annotate(once, again)[1..] == Annotate(once[1..], again);
      assert Annotate(items, both)[1..] == Annotate(items[1..], both);
      AnnotateTwice(items[1..], footer, again);
      if item.ChapterItem? {
        AnnotateTwice(item.chapter.subItems, footer, again);
        AnnotateAt(items, footer, 0);
        AnnotateAt(once, again, 0);
        AnnotateAt(items, both, 0);
        assert item.chapter.content + footer + again == item.chapter.content + both;
      }
      assert Annotate(once, again)[0] == Annotate(items, both)[0];
    }
  }

  /** Two chapters around a separator: both chapters gain the footer, the separator stays. */
  lemma AnnotateExample(a: Chapter, b: Chapter, footer: string)
    requires a.subItems == [] && b.subItems == []
    ensures Annotate([ChapterItem(a), Separator, ChapterItem(b)], footer) ==
      [ChapterItem(a.(content := a.content + footer)), Separator, ChapterItem(b.(content := b.content + footer))]
  {
    var items := [ChapterItem(a), Separator, ChapterItem(b)];
    var f := Handler(footer);
    assert items[1..] == [Separator, ChapterItem(b)];
    assert items[1..][1..] == [ChapterItem(b)];
    assert Visit([ChapterItem(b)], f) == [ChapterItem(b.(content := b.content + footer))];
    assert Visit(items[1..], f) == [Separator, ChapterItem(b.(content := b.content + footer))];
  }
}
