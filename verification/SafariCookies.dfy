/** Safari's binary cookie file: pages of records with offset tables, and the decoder that imports it. */
module SafariCookies {
  import opened Text
  import opened Utf8

  const LIMIT := 20_000

  datatype Cookie = Cookie(domain: string, path: string, secure: bool, httpOnly: bool, expires: Option<int>,
                           name: string, value: string)

  /** What the eight bytes of an expiry date stand for; floating point is not modelled. */
  type Expiry = seq<Byte> -> Option<int>

  // Reading numbers and strings

  function U32Be(bytes: seq<Byte>, offset: nat): Option<nat> {
    if offset + 4 <= |bytes| then
      Some(((bytes[offset] as int * 256 + bytes[offset + 1]) * 256 + bytes[offset + 2]) * 256 + bytes[offset + 3])
    else None
  }

  function U32Le(bytes: seq<Byte>, offset: nat): Option<nat> {
    if offset + 4 <= |bytes| then
      Some(((bytes[offset + 3] as int * 256 + bytes[offset + 2]) * 256 + bytes[offset + 1]) * 256 + bytes[offset])
    else None
  }

  function FirstZero(bytes: seq<Byte>): (index: Option<nat>)
    ensures index.Some? ==> index.value < |bytes|
  {
    if bytes == [] then None
    else if bytes[0] == 0 then Some(0)
    else match FirstZero(bytes[1..])
      case None => None
      case Some(index) => Some(index + 1)
  }

  function CString(bytes: seq<Byte>, offset: nat, end: nat): Option<string> {
    if offset >= end || end > |bytes| then None
    else match FirstZero(bytes[offset..end])
      case None => None
      case Some(length) => Decode(bytes[offset..offset + length])
  }

  function StringField(record: seq<Byte>, field: nat, size: nat): Option<string> {
    match U32Le(record, field)
    case None => None
    case Some(offset) => CString(record, offset, size)
  }

  function Take(text: string, count: nat): string {
    if |text| <= count then text else text[..count]
  }

  function Min(a: nat, b: nat): nat {
    if a < b then a else b
  }

  // Records, pages, files

  function DecodeSized(record: seq<Byte>, size: nat, expiry: Expiry): Option<Cookie>
    requires 48 <= size <= |record|
  {
    var flags := U32Le(record, 8).GetOr(0);
    var domain := StringField(record, 16, size);
    var name := StringField(record, 20, size);
    if domain.None? || domain.value == "" || name.None? || name.value == "" then None
    else
      var path := StringField(record, 24, size);
      var value := StringField(record, 28, size);
      Some(Cookie(
        Take(domain.value, 255),
        Take(if path.Some? && path.value != "" && path.value[0] == '/' then path.value else "/", 2048),
        flags % 2 == 1,
        flags / 4 % 2 == 1,
        expiry(record[40..48]),
        Take(name.value, 512),
        Take(value.GetOr(""), 16_384)))
  }

  /** The record may be followed by more bytes of its page. */
  function DecodeRecord(record: seq<Byte>, expiry: Expiry): Option<Cookie> {
    match U32Le(record, 0)
    case None => None
    case Some(stated) =>
      var size := Min(stated, |record|);
      if size < 48 then None else DecodeSized(record, size, expiry)
  }

  function DecodeSlot(page: seq<Byte>, index: nat, expiry: Expiry): Option<Cookie> {
    match U32Le(page, 8 + index * 4)
    case None => None
    case Some(offset) => if offset > |page| then None else DecodeRecord(page[offset..], expiry)
  }

  function DecodeSlots(page: seq<Byte>, index: nat, count: nat, expiry: Expiry): seq<Cookie>
    requires index <= count
    decreases count - index
  {
    if index == count then []
    else
      var cookie := DecodeSlot(page, index, expiry);
      (if cookie.Some? then [cookie.value] else []) + DecodeSlots(page, index + 1, count, expiry)
  }

  /** How many slots of a page are read: none if its header or its table is broken. */
  function SlotCount(page: seq<Byte>): nat {
    if U32Be(page, 0) != Some(0x100) then 0
    else match U32Le(page, 4)
      case None => 0
      case Some(count) => if 8 + count * 4 > |page| then 0 else count
  }

  function DecodePage(page: seq<Byte>, expiry: Expiry): seq<Cookie> {
    DecodeSlots(page, 0, SlotCount(page), expiry)
  }

  /** The pages from `cursor` on, up to the first that does not fit. */
  function DecodePages(bytes: seq<Byte>, sizes: seq<nat>, cursor: nat, expiry: Expiry): seq<Cookie> {
    if sizes == [] || cursor + sizes[0] > |bytes| then []
    else
      DecodePage(bytes[cursor..cursor + sizes[0]], expiry)
      + DecodePages(bytes, sizes[1..], cursor + sizes[0], expiry)
  }

  function PageSizes(bytes: seq<Byte>, index: nat, count: nat): (sizes: seq<nat>)
    requires index <= count && 8 + count * 4 <= |bytes|
    ensures |sizes| == count - index
    decreases count - index
  {
    if index == count then [] else [U32Be(bytes, 8 + index * 4).value] + PageSizes(bytes, index + 1, count)
  }

  const MAGIC: seq<Byte> := [0x63, 0x6F, 0x6F, 0x6B]

  /** The sizes of the pages, unless the header or the table is broken. */
  function PageTable(bytes: seq<Byte>): (sizes: Option<seq<nat>>)
    ensures sizes.Some? ==> 8 + |sizes.value| * 4 <= |bytes|
  {
    if |bytes| < 4 || bytes[..4] != MAGIC then None
    else match U32Be(bytes, 4)
      case None => None
      case Some(count) => if 8 + count * 4 > |bytes| then None else Some(PageSizes(bytes, 0, count))
  }

  /** Every cookie of the file, without the limit. */
  function DecodeAll(bytes: seq<Byte>, expiry: Expiry): seq<Cookie> {
    match PageTable(bytes)
    case None => []
    case Some(sizes) => DecodePages(bytes, sizes, 8 + |sizes| * 4, expiry)
  }

  function Limited(cookies: seq<Cookie>): seq<Cookie> {
    if |cookies| <= LIMIT then cookies else cookies[..LIMIT]
  }

  // The decoder

  /** Reads the slots of one page onto `before`; stops when the limit is reached. */
  method ImportPage(page: seq<Byte>, before: seq<Cookie>, expiry: Expiry) returns (imported: seq<Cookie>)
    requires |before| < LIMIT
    ensures imported == Limited(before + DecodePage(page, expiry))
  {
    hide DecodeSlot, U32Be, U32Le;
    imported := before;
    if U32Be(page, 0) != Some(0x100) {
      assert before + [] == before;
      return;
    }
    var cookieCount := U32Le(page, 4);
    if cookieCount.None? || 8 + cookieCount.value * 4 > |page| {
      assert before + [] == before;
      return;
    }
    for index := 0 to cookieCount.value
      invariant |imported| < LIMIT
      invariant before + DecodePage(page, expiry) == imported + DecodeSlots(page, index, cookieCount.value, expiry)
    {
      var cookie := DecodeSlot(page, index, expiry);
      if cookie.None? {
        assert [] + DecodeSlots(page, index + 1, cookieCount.value, expiry)
            == DecodeSlots(page, index + 1, cookieCount.value, expiry);
        continue;
      }
      assert imported + ([cookie.value] + DecodeSlots(page, index + 1, cookieCount.value, expiry))
          == imported + [cookie.value] + DecodeSlots(page, index + 1, cookieCount.value, expiry);
      imported := imported + [cookie.value];
      if |imported| >= LIMIT {
        return;
      }
    }
    assert imported + [] == imported;
  }

  method ReadPageTable(bytes: seq<Byte>) returns (table: Option<seq<nat>>)
    ensures table == PageTable(bytes)
  {
    if |bytes| < 4 || bytes[..4] != MAGIC { return None; }
    var pageCount := U32Be(bytes, 4);
    if pageCount.None? || 8 + pageCount.value * 4 > |bytes| { return None; }
    var sizes: seq<nat> := [];
    for index := 0 to pageCount.value
      invariant PageSizes(bytes, 0, pageCount.value) == sizes + PageSizes(bytes, index, pageCount.value)
    {
      var size := U32Be(bytes, 8 + index * 4).value;
      ghost var rest := PageSizes(bytes, index + 1, pageCount.value);
      assert sizes + ([size] + rest) == sizes + [size] + rest;
      sizes := sizes + [size];
    }
    assert sizes + [] == sizes;
    table := Some(sizes);
  }

  lemma LimitedConcat(a: seq<Cookie>, b: seq<Cookie>)
    ensures |Limited(a)| < LIMIT ==> Limited(a) == a
    ensures |Limited(a)| >= LIMIT ==> Limited(a + b) == Limited(a)
  {
  }

  lemma PagesStep(bytes: seq<Byte>, sizes: seq<nat>, index: nat, cursor: nat, expiry: Expiry)
    requires index < |sizes|
    ensures DecodePages(bytes, sizes[index..], cursor, expiry) ==
      if cursor + sizes[index] > |bytes| then []
      else DecodePage(bytes[cursor..cursor + sizes[index]], expiry)
           + DecodePages(bytes, sizes[index + 1..], cursor + sizes[index], expiry)
  {
    assert sizes[index..][1..] == sizes[index + 1..];
  }

  method ImportPages(bytes: seq<Byte>, sizes: seq<nat>, start: nat, expiry: Expiry) returns (imported: seq<Cookie>)
    ensures imported == Limited(DecodePages(bytes, sizes, start, expiry))
  {
    hide DecodePage, DecodePages;
    imported := [];
    var cursor: nat := start;
    assert sizes[0..] == sizes;
    for index := 0 to |sizes|
      invariant |imported| < LIMIT
      invariant DecodePages(bytes, sizes, start, expiry)
          == imported + DecodePages(bytes, sizes[index..], cursor, expiry)
    {
      hide Limited;
      PagesStep(bytes, sizes, index, cursor, expiry);
      var pageEnd := cursor + sizes[index];
      if pageEnd > |bytes| {
        assert imported + [] == imported;
        LimitedSmall(imported);
        return;
      }
      var page := bytes[cursor..pageEnd];
      ghost var rest := DecodePages(bytes, sizes[index + 1..], pageEnd, expiry);
      assert imported + (DecodePage(page, expiry) + rest) == imported + DecodePage(page, expiry) + rest;
      LimitedConcat(imported + DecodePage(page, expiry), rest);
      cursor := pageEnd;
      imported := ImportPage(page, imported, expiry);
      if |imported| >= LIMIT {
        return;
      }
    }
    NoPages(bytes, cursor, expiry);
    assert sizes[|sizes|..] == [] && imported + [] == imported;
  }

  lemma LimitedSmall(cookies: seq<Cookie>)
    requires |cookies| < LIMIT
    ensures Limited(cookies) == cookies
  {
  }

  lemma NoPages(bytes: seq<Byte>, cursor: nat, expiry: Expiry)
    ensures DecodePages(bytes, [], cursor, expiry) == []
  {
  }

  method DecodeSafariBinaryCookies(bytes: seq<Byte>, expiry: Expiry) returns (imported: seq<Cookie>)
    ensures imported == Limited(DecodeAll(bytes, expiry))
  {
    hide PageTable, DecodePages;
    var table := ReadPageTable(bytes);
    if table.None? { return []; }
    imported := ImportPages(bytes, table.value, 8 + |table.value| * 4, expiry);
  }

  // Any bytes

  /** What every imported cookie satisfies, whatever the file. */
  predicate Importable(cookie: Cookie) {
    && 1 <= |cookie.domain| <= 255 && 1 <= |cookie.name| <= 512 && |cookie.value| <= 16_384
    && 1 <= |cookie.path| <= 2048 && cookie.path[0] == '/'
  }

  lemma {:induction false} SlotsImportable(page: seq<Byte>, index: nat, count: nat, expiry: Expiry)
    requires index <= count
    ensures forall cookie :: cookie in DecodeSlots(page, index, count, expiry) ==> Importable(cookie)
    decreases count - index
  {
    if index < count {
      SlotsImportable(page, index + 1, count, expiry);
    }
  }

  lemma {:induction false} PagesImportable(bytes: seq<Byte>, sizes: seq<nat>, cursor: nat, expiry: Expiry)
    ensures forall cookie :: cookie in DecodePages(bytes, sizes, cursor, expiry) ==> Importable(cookie)
  {
    if sizes != [] && cursor + sizes[0] <= |bytes| {
      var page := bytes[cursor..cursor + sizes[0]];
      SlotsImportable(page, 0, SlotCount(page), expiry);
      PagesImportable(bytes, sizes[1..], cursor + sizes[0], expiry);
    }
  }

  /** Arbitrary bytes give at most 20,000 cookies, each with a domain, a name and an absolute path. */
  lemma AnyBytesImport(bytes: seq<Byte>, expiry: Expiry)
    ensures |Limited(DecodeAll(bytes, expiry))| <= LIMIT
    ensures forall cookie :: cookie in Limited(DecodeAll(bytes, expiry)) ==> Importable(cookie)
  {
    hide PageTable, DecodePages;
    var table := PageTable(bytes);
    if table.Some? {
      PagesImportable(bytes, table.value, 8 + |table.value| * 4, expiry);
    }
    var all := DecodeAll(bytes, expiry);
    assert forall cookie :: cookie in Limited(all) ==> cookie in all;
  }

  // Broken files

  /** A file without the magic number, or whose page table does not fit, gives nothing. */
  lemma BrokenFilesGiveNothing(bytes: seq<Byte>, expiry: Expiry)
    requires || |bytes| < 8 || bytes[..4] != [0x63, 0x6F, 0x6F, 0x6B]
             || 8 + U32Be(bytes, 4).value * 4 > |bytes|
    ensures Limited(DecodeAll(bytes, expiry)) == []
  {
    hide DecodePages;
  }

  /** A page without its header, or whose slots do not fit, gives nothing, and neither does a slot that points outside
      the page. */
  lemma BrokenPagesGiveNothing(page: seq<Byte>, index: nat, expiry: Expiry)
    ensures |page| < 8 || U32Be(page, 0) != Some(0x100) || 8 + U32Le(page, 4).value * 4 > |page| ==>
      DecodePage(page, expiry) == []
    ensures U32Le(page, 8 + index * 4).None? || U32Le(page, 8 + index * 4).value > |page| ==>
      DecodeSlot(page, index, expiry).None?
  {
    hide DecodeRecord;
  }

  /** The first zero from `offset` on is after `length` bytes, before `end`. */
  predicate ZeroAfter(bytes: seq<Byte>, offset: nat, end: nat, length: nat) {
    offset + length < end <= |bytes| && bytes[offset + length] == 0 && 0 !in bytes[offset..offset + length]
  }

  lemma FirstZeroIff(bytes: seq<Byte>, offset: nat, end: nat, length: nat)
    requires offset <= end <= |bytes|
    ensures FirstZero(bytes[offset..end]) == Some(length) <==> ZeroAfter(bytes, offset, end, length)
  {
    hide FirstZero;
    var part := bytes[offset..end];
    ZeroIsFirst(part);
    var found := FirstZero(part);
    if found.Some? {
      assert part[..found.value] == bytes[offset..offset + found.value]
          && part[found.value] == bytes[offset + found.value];
    }
    if ZeroAfter(bytes, offset, end, length) {
      assert part[length] == 0 && part[..length] == bytes[offset..offset + length];
    }
  }

  /** Text up to the first zero, if there is one before the end and it is UTF-8. */
  lemma CStringIff(bytes: seq<Byte>, offset: nat, end: nat, text: string)
    requires offset <= end <= |bytes|
    ensures CString(bytes, offset, end) == Some(text) <==>
      exists length :: ZeroAfter(bytes, offset, end, length) && bytes[offset..offset + length] == Encode(text)
  {
    hide FirstZero, Decode, Encode;
    forall length: nat
      ensures FirstZero(bytes[offset..end]) == Some(length) <==> ZeroAfter(bytes, offset, end, length)
    {
      FirstZeroIff(bytes, offset, end, length);
    }
    hide ZeroAfter;
    DecodeEncoded(text);
    if CString(bytes, offset, end).Some? {
      DecodeIsExact(bytes[offset..offset + FirstZero(bytes[offset..end]).value]);
    }
  }

  lemma {:induction false} ZeroIsFirst(bytes: seq<Byte>)
    ensures match FirstZero(bytes)
      case None => 0 !in bytes
      case Some(index) => bytes[index] == 0 && 0 !in bytes[..index]
  {
    if bytes != [] && bytes[0] != 0 {
      ZeroIsFirst(bytes[1..]);
      match FirstZero(bytes[1..])
      case None =>
      case Some(index) => assert bytes[..index + 1] == [bytes[0]] + bytes[1..][..index];
    }
  }

  /** A record gives a cookie exactly when its size fits the fixed part and it has a domain and a name; without a
      path that starts with a slash the path is the root, without a value the value is empty. */
  lemma RecordGivesIff(record: seq<Byte>, expiry: Expiry)
    ensures var size := if |record| < 4 then 0 else Min(U32Le(record, 0).value, |record|);
      var (domain, name) := (StringField(record, 16, size), StringField(record, 20, size));
      && (DecodeRecord(record, expiry).Some?
          <==> size >= 48 && domain.Some? && domain.value != "" && name.Some? && name.value != "")
      && (DecodeRecord(record, expiry).Some? ==>
            var (cookie, path, value) :=
              (DecodeRecord(record, expiry).value, StringField(record, 24, size), StringField(record, 28, size));
            && cookie.domain <= domain.value && cookie.name <= name.value
            && (|domain.value| <= 255 ==> cookie.domain == domain.value)
            && (|name.value| <= 512 ==> cookie.name == name.value)
            && (path.None? || path.value == "" || path.value[0] != '/' ==> cookie.path == "/")
            && (path.Some? && path.value != "" && path.value[0] == '/' && |path.value| <= 2048 ==>
                  cookie.path == path.value)
            && (value.None? ==> cookie.value == "")
            && (value.Some? && |value.value| <= 16_384 ==> cookie.value == value.value))
  {
    hide StringField;
  }
}
