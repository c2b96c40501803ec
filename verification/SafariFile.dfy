/** A writer for Safari's cookie file, and the proof that the decoder reads back what it writes. */
module SafariFile {
  import opened Text
  import opened Utf8
  import opened SafariCookies

  const WORD := 0x1_0000_0000

  function Word(n: nat): (bytes: seq<Byte>)
    requires n < WORD
    ensures |bytes| == 4
  {
    [n % 256, n / 256 % 256, n / 256 / 256 % 256, n / 256 / 256 / 256]
  }

  function WordBe(n: nat): (bytes: seq<Byte>)
    requires n < WORD
    ensures |bytes| == 4
  {
    [n / 256 / 256 / 256, n / 256 / 256 % 256, n / 256 % 256, n % 256]
  }

  predicate Fits(words: seq<nat>) {
    forall i | 0 <= i < |words| :: words[i] < WORD
  }

  function Words(words: seq<nat>): (bytes: seq<Byte>)
    requires Fits(words)
    ensures |bytes| == 4 * |words|
  {
    if words == [] then [] else Word(words[0]) + Words(words[1..])
  }

  function WordsBe(words: seq<nat>): (bytes: seq<Byte>)
    requires Fits(words)
    ensures |bytes| == 4 * |words|
  {
    if words == [] then [] else WordBe(words[0]) + WordsBe(words[1..])
  }

  lemma WordReads(pre: seq<Byte>, n: nat, post: seq<Byte>)
    requires n < WORD
    ensures U32Le(pre + Word(n) + post, |pre|) == Some(n)
    ensures U32Be(pre + WordBe(n) + post, |pre|) == Some(n)
  {
  }

  lemma {:induction false} WordsRead(pre: seq<Byte>, words: seq<nat>, post: seq<Byte>, k: nat)
    requires Fits(words) && k < |words|
    ensures U32Le(pre + Words(words) + post, |pre| + 4 * k) == Some(words[k])
    decreases k
  {
    if k == 0 {
      assert pre + Words(words) + post == pre + Word(words[0]) + (Words(words[1..]) + post);
      WordReads(pre, words[0], Words(words[1..]) + post);
    } else {
      assert pre + Words(words) + post == (pre + Word(words[0])) + Words(words[1..]) + post;
      WordsRead(pre + Word(words[0]), words[1..], post, k - 1);
    }
  }

  lemma {:induction false} WordsBeRead(pre: seq<Byte>, words: seq<nat>, post: seq<Byte>, k: nat)
    requires Fits(words) && k < |words|
    ensures U32Be(pre + WordsBe(words) + post, |pre| + 4 * k) == Some(words[k])
    decreases k
  {
    if k == 0 {
      assert pre + WordsBe(words) + post == pre + WordBe(words[0]) + (WordsBe(words[1..]) + post);
      WordReads(pre, words[0], WordsBe(words[1..]) + post);
    } else {
      assert pre + WordsBe(words) + post == (pre + WordBe(words[0])) + WordsBe(words[1..]) + post;
      WordsBeRead(pre + WordBe(words[0]), words[1..], post, k - 1);
    }
  }

  lemma {:induction false} FirstZeroAfter(text: seq<Byte>, more: seq<Byte>)
    requires 0 !in text
    ensures FirstZero(text + [0] + more) == Some(|text|)
  {
    if text != [] {
      assert text[0] != 0 && forall b :: b in text[1..] ==> b in text;
      assert (text + [0] + more)[1..] == text[1..] + [0] + more;
      FirstZeroAfter(text[1..], more);
    } else {
      assert (text + [0] + more)[0] == 0;
    }
  }

  function CText(text: string): seq<Byte> {
    Encode(text) + [0]
  }

  lemma CTextReads(pre: seq<Byte>, text: string, post: seq<Byte>, end: nat)
    requires '\0' !in text && |pre| + |CText(text)| <= end <= |pre + CText(text) + post|
    ensures CString(pre + CText(text) + post, |pre|, end) == Some(text)
  {
    var bytes, code := pre + CText(text) + post, Encode(text);
    EncodeHasNoZero(text);
    var more := bytes[|pre| + |code| + 1..end];
    assert bytes[|pre|..end] == code + [0] + more;
    FirstZeroAfter(code, more);
    assert bytes[|pre|..|pre| + |code|] == code;
    DecodeEncoded(text);
  }

  // Records

  datatype Stored = Stored(domain: string, name: string, path: string, value: string, secure: bool, httpOnly: bool,
                           expiry: seq<Byte>, created: seq<Byte>)
  {
    predicate Valid() {
      && 1 <= |domain| <= 255 && 1 <= |name| <= 512 && 1 <= |path| <= 2048 && path[0] == '/' && |value| <= 16_384
      && '\0' !in domain && '\0' !in name && '\0' !in path && '\0' !in value
      && |expiry| == 8 && |created| == 8
    }

    function Imported(meaning: Expiry): Cookie {
      Cookie(domain, path, secure, httpOnly, meaning(expiry), name, value)
    }

    function Flags(): nat {
      (if secure then 1 else 0) + (if httpOnly then 4 else 0)
    }

    function Fields(): seq<nat> {
      var d, n, p, v := |CText(domain)|, |CText(name)|, |CText(path)|, |CText(value)|;
      [56 + d + n + p + v, 0, Flags(), 0, 56, 56 + d, 56 + d + n, 56 + d + n + p]
    }

    function Texts(): seq<Byte> {
      CText(domain) + CText(name) + CText(path) + CText(value)
    }

    function Size(): nat {
      56 + |Texts()|
    }
  }

  const ZEROS: seq<Byte> := [0, 0, 0, 0, 0, 0, 0, 0]

  lemma SizeBound(c: Stored)
    requires c.Valid()
    ensures c.Size() <= 76_860 && Fits(c.Fields()) && c.Fields()[0] == c.Size()
  {
    EncodeLength(c.domain);
    EncodeLength(c.name);
    EncodeLength(c.path);
    EncodeLength(c.value);
  }

  function Record(c: Stored): (record: seq<Byte>)
    requires c.Valid()
    ensures |record| == c.Size() <= 76_860
  {
    SizeBound(c);
    Words(c.Fields()) + ZEROS + c.expiry + c.created + c.Texts()
  }

  lemma FieldReads(c: Stored, rest: seq<Byte>, k: nat)
    requires c.Valid() && k < 8
    ensures Fits(c.Fields()) && U32Le(Record(c) + rest, 4 * k) == Some(c.Fields()[k])
  {
    SizeBound(c);
    var post := ZEROS + c.expiry + c.created + c.Texts() + rest;
    assert Record(c) + rest == [] + Words(c.Fields()) + post;
    WordsRead([], c.Fields(), post, k);
  }

  lemma ExpiryReads(c: Stored, rest: seq<Byte>)
    requires c.Valid()
    ensures (Record(c) + rest)[40..48] == c.expiry
  {
    SizeBound(c);
    var pre := Words(c.Fields()) + ZEROS;
    assert Record(c) + rest == pre + c.expiry + (c.created + c.Texts() + rest);
  }

  /** One of the four texts, between the bytes before and after it, read through the field that points to it. */
  lemma TextReads(c: Stored, rest: seq<Byte>, k: nat, before: seq<Byte>, text: string, after: seq<Byte>)
    requires c.Valid() && k < 8 && c.Fields()[k] == 56 + |before|
    requires c.Texts() == before + CText(text) + after && '\0' !in text
    ensures StringField(Record(c) + rest, 4 * k, c.Size()) == Some(text)
  {
    FieldReads(c, rest, k);
    SizeBound(c);
    var pre := Words(c.Fields()) + ZEROS + c.expiry + c.created + before;
    assert Record(c) + rest == pre + CText(text) + (after + rest);
    hide Record, U32Le, CString, CText;
    CTextReads(pre, text, after + rest, c.Size());
  }

  lemma DomainAndNameRead(c: Stored, rest: seq<Byte>)
    requires c.Valid()
    ensures StringField(Record(c) + rest, 16, c.Size()) == Some(c.domain)
    ensures StringField(Record(c) + rest, 20, c.Size()) == Some(c.name)
  {
    hide StringField, Record;
    var d, n, p, v := CText(c.domain), CText(c.name), CText(c.path), CText(c.value);
    assert c.Texts() == [] + d + (n + p + v);
    TextReads(c, rest, 4, [], c.domain, n + p + v);
    assert c.Texts() == d + n + (p + v);
    TextReads(c, rest, 5, d, c.name, p + v);
  }

  lemma PathAndValueRead(c: Stored, rest: seq<Byte>)
    requires c.Valid()
    ensures StringField(Record(c) + rest, 24, c.Size()) == Some(c.path)
    ensures StringField(Record(c) + rest, 28, c.Size()) == Some(c.value)
  {
    hide StringField, Record;
    var d, n, p, v := CText(c.domain), CText(c.name), CText(c.path), CText(c.value);
    assert c.Texts() == (d + n) + p + v;
    TextReads(c, rest, 6, d + n, c.path, v);
    assert c.Texts() == (d + n + p) + v + [];
    TextReads(c, rest, 7, d + n + p, c.value, []);
  }

  lemma HeaderReads(c: Stored, rest: seq<Byte>)
    requires c.Valid()
    ensures U32Le(Record(c) + rest, 0) == Some(c.Size())
    ensures U32Le(Record(c) + rest, 8) == Some(c.Flags())
  {
    hide U32Le, Record;
    SizeBound(c);
    FieldReads(c, rest, 0);
    FieldReads(c, rest, 2);
  }

  lemma SizedDecodes(c: Stored, rest: seq<Byte>, meaning: Expiry)
    requires c.Valid() && 48 <= c.Size() <= |Record(c) + rest|
    ensures DecodeSized(Record(c) + rest, c.Size(), meaning) == Some(c.Imported(meaning))
  {
    hide StringField, U32Le, Record;
    HeaderReads(c, rest);
    ExpiryReads(c, rest);
    DomainAndNameRead(c, rest);
    PathAndValueRead(c, rest);
  }

  /** A written record decodes to its cookie, whatever follows it in the page. */
  lemma RecordDecodes(c: Stored, rest: seq<Byte>, meaning: Expiry)
    requires c.Valid()
    ensures DecodeRecord(Record(c) + rest, meaning) == Some(c.Imported(meaning))
  {
    assert |Record(c)| == c.Size();
    hide DecodeSized, U32Le, Record;
    HeaderReads(c, rest);
    SizedDecodes(c, rest, meaning);
  }

  // Pages

  predicate AllValid(cookies: seq<Stored>) {
    forall i | 0 <= i < |cookies| :: cookies[i].Valid()
  }

  function Records(cookies: seq<Stored>): (bytes: seq<Byte>)
    requires AllValid(cookies)
    ensures |bytes| <= 76_860 * |cookies|
  {
    if cookies == [] then [] else Record(cookies[0]) + Records(cookies[1..])
  }

  /** Where each record starts, the first at `start`. */
  function Offsets(cookies: seq<Stored>, start: nat): (offsets: seq<nat>)
    requires AllValid(cookies)
    ensures |offsets| == |cookies|
  {
    if cookies == [] then [] else [start] + Offsets(cookies[1..], start + |Record(cookies[0])|)
  }

  lemma OffsetsStep(cookies: seq<Stored>, start: nat, i: nat)
    requires AllValid(cookies) && i < |cookies|
    ensures Offsets(cookies, start)[i] ==
      if i == 0 then start else Offsets(cookies[1..], start + |Record(cookies[0])|)[i - 1]
  {
    hide Record;
  }

  lemma {:induction false} OffsetsBound(cookies: seq<Stored>, start: nat, i: nat)
    requires AllValid(cookies) && i < |cookies|
    ensures Offsets(cookies, start)[i] <= start + 76_860 * |cookies|
    decreases |cookies|
  {
    OffsetsStep(cookies, start, i);
    if i > 0 {
      hide Record, Offsets;
      OffsetsBound(cookies[1..], start + |Record(cookies[0])|, i - 1);
    }
  }

  lemma RecordsStep(pre: seq<Byte>, cookies: seq<Stored>)
    requires AllValid(cookies) && cookies != []
    ensures AllValid(cookies[1..])
    ensures Records(cookies) == Record(cookies[0]) + Records(cookies[1..])
    ensures pre + Records(cookies) == (pre + Record(cookies[0])) + Records(cookies[1..])
    ensures |pre + Record(cookies[0])| == |pre| + |Record(cookies[0])|
  {
    hide Record, Stored.Valid;
    Assoc(pre, Record(cookies[0]), Records(cookies[1..]));
  }

  lemma ValidTail(cookies: seq<Stored>, i: nat)
    requires AllValid(cookies) && i < |cookies|
    ensures cookies[i].Valid() && AllValid(cookies[i + 1..])
  {
    hide Stored.Valid;
  }

  /** What a page holds from the start of record `i` on. */
  lemma {:induction false} RecordAt(pre: seq<Byte>, cookies: seq<Stored>, i: nat)
    requires AllValid(cookies) && i < |cookies|
    ensures cookies[i].Valid() && AllValid(cookies[i + 1..])
    ensures Offsets(cookies, |pre|)[i] <= |pre + Records(cookies)|
    ensures (pre + Records(cookies))[Offsets(cookies, |pre|)[i]..] == Record(cookies[i]) + Records(cookies[i + 1..])
    decreases i
  {
    ValidTail(cookies, 0);
    RecordsStep(pre, cookies);
    OffsetsStep(cookies, |pre|, i);
    hide Record, Records, Offsets, AllValid, Stored.Valid, Stored.Size;
    if i == 0 {
      assert (pre + Records(cookies))[|pre|..] == Records(cookies);
    } else {
      RecordAt(pre + Record(cookies[0]), cookies[1..], i - 1);
      assert cookies[1..][i..] == cookies[i + 1..];
    }
  }

  predicate ValidPage(cookies: seq<Stored>) {
    |cookies| <= LIMIT && AllValid(cookies)
  }

  const PAGE_HEADER: seq<Byte> := [0, 0, 1, 0]
  const PAGE_FOOTER: seq<Byte> := [0, 0, 0, 0]

  /** The count and the offset table. */
  function Head(cookies: seq<Stored>): (words: seq<nat>)
    requires ValidPage(cookies)
    ensures Fits(words) && |words| == 1 + |cookies|
  {
    var offsets := Offsets(cookies, 12 + 4 * |cookies|);
    assert forall i | 0 <= i < |offsets| :: offsets[i] < WORD by {
      hide Offsets;
      forall i | 0 <= i < |offsets| ensures offsets[i] < WORD {
        OffsetsBound(cookies, 12 + 4 * |cookies|, i);
      }
    }
    [|cookies|] + offsets
  }

  /** Everything before the records. */
  function Table(cookies: seq<Stored>): (bytes: seq<Byte>)
    requires ValidPage(cookies)
    ensures |bytes| == 12 + 4 * |cookies|
  {
    PAGE_HEADER + Words(Head(cookies)) + PAGE_FOOTER
  }

  function Page(cookies: seq<Stored>): (page: seq<Byte>)
    requires ValidPage(cookies)
    ensures |page| < WORD
  {
    Table(cookies) + Records(cookies)
  }

  lemma HeadReads(cookies: seq<Stored>, k: nat)
    requires ValidPage(cookies) && k <= |cookies|
    ensures U32Le(Page(cookies), 4 + 4 * k) == Some(Head(cookies)[k])
  {
    var post := PAGE_FOOTER + Records(cookies);
    assert Page(cookies) == PAGE_HEADER + Words(Head(cookies)) + post by {
      hide Words, Head, Records;
    }
    hide Words, Head, Records, U32Le, Page;
    WordsRead(PAGE_HEADER, Head(cookies), post, k);
  }

  lemma SlotReads(page: seq<Byte>, i: nat, offset: nat, meaning: Expiry)
    requires U32Le(page, 4 + 4 * (1 + i)) == Some(offset) && offset <= |page|
    ensures DecodeSlot(page, i, meaning) == DecodeRecord(page[offset..], meaning)
  {
    hide U32Le, DecodeRecord;
    assert 8 + i * 4 == 4 + 4 * (1 + i);
  }

  lemma SlotOffset(cookies: seq<Stored>, i: nat)
    requires ValidPage(cookies) && i < |cookies|
    ensures Head(cookies)[1 + i] == Offsets(cookies, |Table(cookies)|)[i]
  {
    hide Offsets, Table, AllValid;
  }

  lemma SlotHolds(cookies: seq<Stored>, i: nat)
    requires ValidPage(cookies) && i < |cookies|
    ensures cookies[i].Valid() && AllValid(cookies[i + 1..])
    ensures Head(cookies)[1 + i] <= |Page(cookies)|
    ensures Page(cookies)[Head(cookies)[1 + i]..] == Record(cookies[i]) + Records(cookies[i + 1..])
  {
    hide Offsets, Record, Records, Table, Head, AllValid, Stored.Valid, Stored.Size;
    RecordAt(Table(cookies), cookies, i);
    SlotOffset(cookies, i);
  }

  lemma SlotDecodes(cookies: seq<Stored>, i: nat, meaning: Expiry)
    requires ValidPage(cookies) && i < |cookies|
    ensures DecodeSlot(Page(cookies), i, meaning) == Some(cookies[i].Imported(meaning))
  {
    hide Head, Page, U32Le, Record, Records, ValidPage, AllValid, DecodeSlot, DecodeRecord, Stored.Valid,
        Stored.Imported;
    HeadReads(cookies, 1 + i);
    SlotHolds(cookies, i);
    SlotReads(Page(cookies), i, Head(cookies)[1 + i], meaning);
    RecordDecodes(cookies[i], Records(cookies[i + 1..]), meaning);
  }

  function ImportedAll(cookies: seq<Stored>, meaning: Expiry): (all: seq<Cookie>)
    ensures |all| == |cookies|
  {
    if cookies == [] then [] else [cookies[0].Imported(meaning)] + ImportedAll(cookies[1..], meaning)
  }

  lemma {:induction false} SlotsDecode(cookies: seq<Stored>, i: nat, meaning: Expiry)
    requires ValidPage(cookies) && i <= |cookies|
    ensures DecodeSlots(Page(cookies), i, |cookies|, meaning) == ImportedAll(cookies[i..], meaning)
    decreases |cookies| - i
  {
    hide DecodeSlot, Page, ValidPage;
    if i < |cookies| {
      SlotDecodes(cookies, i, meaning);
      SlotsDecode(cookies, i + 1, meaning);
      assert cookies[i..][1..] == cookies[i + 1..];
    }
  }

  lemma PageHeaderReads(cookies: seq<Stored>)
    requires ValidPage(cookies)
    ensures SlotCount(Page(cookies)) == |cookies|
  {
    HeadReads(cookies, 0);
    hide Words, Records, Offsets;
    assert Page(cookies)[..4] == PAGE_HEADER;
  }

  /** A written page decodes to its cookies. */
  lemma PageDecodes(cookies: seq<Stored>, meaning: Expiry)
    requires ValidPage(cookies)
    ensures DecodePage(Page(cookies), meaning) == ImportedAll(cookies, meaning)
  {
    hide SlotCount, Page, ValidPage, DecodeSlots, ImportedAll;
    PageHeaderReads(cookies);
    SlotsDecode(cookies, 0, meaning);
    assert cookies[0..] == cookies;
  }

  // Files

  function Flatten(pages: seq<seq<Stored>>): seq<Stored> {
    if pages == [] then [] else pages[0] + Flatten(pages[1..])
  }

  predicate ValidPages(pages: seq<seq<Stored>>) {
    forall i | 0 <= i < |pages| :: ValidPage(pages[i])
  }

  function PageBytes(pages: seq<seq<Stored>>): seq<Byte>
    requires ValidPages(pages)
  {
    if pages == [] then [] else Page(pages[0]) + PageBytes(pages[1..])
  }

  function Sizes(pages: seq<seq<Stored>>): (sizes: seq<nat>)
    requires ValidPages(pages)
    ensures |sizes| == |pages| && Fits(sizes)
  {
    if pages == [] then [] else [|Page(pages[0])|] + Sizes(pages[1..])
  }

  function FileHead(pages: seq<seq<Stored>>): (bytes: seq<Byte>)
    requires |pages| < WORD && ValidPages(pages)
    ensures |bytes| == 8 + 4 * |pages|
  {
    MAGIC + WordBe(|pages|) + WordsBe(Sizes(pages))
  }

  /** A file of these pages; the checksum and whatever else follows them is `tail`. */
  function File(pages: seq<seq<Stored>>, tail: seq<Byte>): seq<Byte>
    requires |pages| < WORD && ValidPages(pages)
  {
    FileHead(pages) + (PageBytes(pages) + tail)
  }

  lemma {:induction false} ImportedConcat(a: seq<Stored>, b: seq<Stored>, meaning: Expiry)
    ensures ImportedAll(a + b, meaning) == ImportedAll(a, meaning) + ImportedAll(b, meaning)
  {
    if a == [] {
      assert a + b == b;
    } else {
      assert (a + b)[1..] == a[1..] + b;
      ImportedConcat(a[1..], b, meaning);
    }
  }

  lemma Regroup(pre: seq<Byte>, page: seq<Byte>, pages: seq<Byte>, tail: seq<Byte>)
    ensures pre + ((page + pages) + tail) == (pre + page) + (pages + tail)
    ensures (pre + ((page + pages) + tail))[|pre|..|pre| + |page|] == page
  {
  }

  /** The pages still to be read, after those already read. */
  lemma {:induction false} PagesDecode(pre: seq<Byte>, pages: seq<seq<Stored>>, tail: seq<Byte>, meaning: Expiry)
    requires ValidPages(pages)
    ensures DecodePages(pre + (PageBytes(pages) + tail), Sizes(pages), |pre|, meaning)
        == ImportedAll(Flatten(pages), meaning)
    decreases |pages|
  {
    hide Page, DecodePage, ValidPage, ImportedAll, Fits;
    if pages != [] {
      var page := Page(pages[0]);
      Regroup(pre, page, PageBytes(pages[1..]), tail);
      assert Sizes(pages)[1..] == Sizes(pages[1..]);
      PageDecodes(pages[0], meaning);
      PagesDecode(pre + page, pages[1..], tail, meaning);
      ImportedConcat(pages[0], Flatten(pages[1..]), meaning);
    } else {
      NoneImported(meaning);
    }
  }

  lemma NoneImported(meaning: Expiry)
    ensures ImportedAll([], meaning) == []
  {
  }

  lemma {:induction false} SizesRead(bytes: seq<Byte>, sizes: seq<nat>, i: nat)
    requires 8 + |sizes| * 4 <= |bytes| && i <= |sizes|
    requires forall k: nat | k < |sizes| :: U32Be(bytes, 8 + k * 4) == Some(sizes[k])
    ensures PageSizes(bytes, i, |sizes|) == sizes[i..]
    decreases |sizes| - i
  {
    hide U32Be;
    if i < |sizes| {
      SizesRead(bytes, sizes, i + 1);
      assert sizes[i..] == [sizes[i]] + sizes[i + 1..];
    }
  }

  lemma RegroupFile(a: seq<Byte>, b: seq<Byte>, c: seq<Byte>, d: seq<Byte>)
    requires |a| == 4
    ensures a + b + c + d == a + b + (c + d)
    ensures (a + b + c + d)[..4] == a
  {
  }

  lemma TableEntriesRead(pre: seq<Byte>, sizes: seq<nat>, post: seq<Byte>)
    requires |pre| == 8 && Fits(sizes)
    ensures forall k: nat | k < |sizes| :: U32Be(pre + WordsBe(sizes) + post, 8 + k * 4) == Some(sizes[k])
  {
    hide U32Be, WordsBe, Fits;
    forall k: nat | k < |sizes| ensures U32Be(pre + WordsBe(sizes) + post, 8 + k * 4) == Some(sizes[k]) {
      assert 8 + k * 4 == |pre| + 4 * k;
      WordsBeRead(pre, sizes, post, k);
    }
  }

  lemma TableReads(pages: seq<seq<Stored>>, tail: seq<Byte>)
    requires |pages| < WORD && ValidPages(pages)
    ensures PageTable(File(pages, tail)) == Some(Sizes(pages))
  {
    hide ValidPages, ValidPage, PageBytes, Sizes, WordBe, WordsBe, U32Be, PageSizes, Fits;
    var sizes := Sizes(pages);
    var post := PageBytes(pages) + tail;
    RegroupFile(MAGIC, WordBe(|pages|), WordsBe(sizes), post);
    WordReads(MAGIC, |pages|, WordsBe(sizes) + post);
    TableEntriesRead(MAGIC + WordBe(|pages|), sizes, post);
    SizesRead(File(pages, tail), sizes, 0);
    assert sizes[0..] == sizes;
  }

  lemma NotCut(cookies: seq<Cookie>)
    requires |cookies| <= LIMIT
    ensures Limited(cookies) == cookies
  {
  }

  /** Decoding is the inverse of writing: every list of at most 20,000 valid cookies, however it is laid
      out in pages and whatever follows them, is imported in order. */
  lemma DecodeInvertsWriting(pages: seq<seq<Stored>>, tail: seq<Byte>, meaning: Expiry)
    requires |pages| < WORD && ValidPages(pages)
    requires |Flatten(pages)| <= LIMIT
    ensures Limited(DecodeAll(File(pages, tail), meaning)) == ImportedAll(Flatten(pages), meaning)
  {
    hide PageTable, FileHead, PageBytes, ValidPages, ValidPage, Page, Sizes, Flatten, ImportedAll, DecodePages, Limited,
        Fits;
    TableReads(pages, tail);
    PagesDecode(FileHead(pages), pages, tail, meaning);
    NotCut(ImportedAll(Flatten(pages), meaning));
  }
}
