/** The text of a response in canonical JSON: sorted keys, no spaces, only quotes, backslashes and
    control characters escaped. Its encoding is as long as Paging counts. */
module JsonText {
  import opened Basics
  import opened Utf8
  import opened SyncTypes
  import opened V1Bridge
  import opened Paging
  import opened RequestCache

  // ---------- Texts ----------

  function HexDigit(n: nat): char
    requires n < 16
  {
    if n < 10 then ('0' as int + n) as char else ('a' as int + n - 10) as char
  }

  function Escape(c: char): string {
    if c == '"' then "\\\""
    else if c == '\\' then "\\\\"
    else if c == '\n' then "\\n"
    else if c == '\r' then "\\r"
    else if c == '\t' then "\\t"
    else if c == '\U{8}' then "\\b"
    else if c == '\U{C}' then "\\f"
    else if c as int < 0x20 then "\\u00" + [HexDigit(c as int / 16), HexDigit(c as int % 16)]
    else [c]
  }

  function Escaped(s: string): string {
    if s == [] then "" else Escape(s[0]) + Escaped(s[1..])
  }

  function Quoted(s: string): string {
    "\"" + Escaped(s) + "\""
  }

  function Member(key: string, value: string): string {
    "\"" + key + "\":" + value
  }

  function Join(items: seq<string>): string {
    if items == [] then ""
    else if |items| == 1 then items[0]
    else Join(items[..|items| - 1]) + "," + items[|items| - 1]
  }

  function Object(members: seq<string>): string {
    "{" + Join(members) + "}"
  }

  function List(items: seq<string>): string {
    "[" + Join(items) + "]"
  }

  function Truth(b: bool): string {
    if b then "true" else "false"
  }

  function IntText(n: int): string {
    if n < 0 then "-" + Digits(-n) else Digits(n)
  }

  function NullableText(n: Option<int>): string {
    if n.None? then "null" else IntText(n.value)
  }

  // ---------- A change ----------

  // What is left open: how a price is written, and which changes have no hint where others have
  // a null.
  datatype Style = Style(price: Number -> string, omits: Change -> bool)

  function PriceText(style: Style, p: Option<Number>): string {
    if p.None? then "null" else style.price(p.value)
  }

  function HintText(hint: Option<Hint>, issue: string): string {
    match hint
    case None => "null"
    case Some(h) =>
      Object([Member("edition", Quoted(h.edition)), Member("id", Quoted(issue)), Member("number", IntText(h.number)),
              Member("origin", Quoted(if h.origin.Bundled? then "bundled" else "custom")),
              Member("publisher", Quoted(h.publisher)), Member("series", Quoted(h.series)),
              Member("title", Quoted(h.title)), Member("year", NullableText(h.year))])
  }

  function HintMember(style: Style, c: Change): seq<string> {
    if HintOf(c.data).None? && style.omits(c) then []
    else [Member("issue_hint", HintText(HintOf(c.data), ChangeIssue(c)))]
  }

  // The members of the data before the hint, and those behind it.
  function Front(style: Style, data: Data): seq<string> {
    match data
    case Issue(d) =>
      [Member("artist", Quoted(d.artist)), Member("deleted", Truth(d.deleted)), Member("edition", Quoted(d.edition)),
       Member("number", IntText(d.number)), Member("page_count", NullableText(d.pageCount))]
    case Entry(d) =>
      [Member("deleted", Truth(d.deleted)), Member("is_duplicate", Truth(d.isDuplicate)), Member("is_read", Truth(d.isRead)),
       Member("is_wanted", Truth(d.isWanted))]
    case Copy(d) =>
      [Member("active", Truth(d.active)), Member("condition_grade", Quoted(d.conditionGrade)),
       Member("deleted", Truth(d.deleted)), Member("estimated_value", PriceText(style, d.estimatedValue))]
    case Barcode(d) => [Member("deleted", Truth(d.deleted))]
  }

  function Back(style: Style, data: Data): seq<string> {
    match data
    case Issue(d) =>
      [Member("publisher", Quoted(d.publisher)), Member("series", Quoted(d.series)), Member("title", Quoted(d.title)),
       Member("writer", Quoted(d.writer)), Member("year", NullableText(d.year))]
    case Entry(d) =>
      [Member("issue_id", Quoted(d.issueId)), Member("notes", Quoted(d.notes)), Member("owned", Truth(d.owned)),
       Member("rating", IntText(d.rating)), Member("updated_at", IntText(d.updatedAt))]
    case Copy(d) =>
      [Member("issue_id", Quoted(d.issueId)), Member("loaned_to", Quoted(d.loanedTo)), Member("ordinal", IntText(d.ordinal)),
       Member("purchase_price", PriceText(style, d.purchasePrice)), Member("updated_at", IntText(d.updatedAt))]
    case Barcode(d) => [Member("issue_id", Quoted(d.issueId)), Member("updated_at", IntText(d.updatedAt))]
  }

  function DataText(style: Style, c: Change): string {
    Object(Front(style, c.data) + (if c.data.Issue? then [] else HintMember(style, c)) + Back(style, c.data))
  }

  function KindText(data: Data): string {
    match data
    case Issue(_) => "custom_issue"
    case Entry(_) => "collection_entry"
    case Copy(_) => "copy"
    case Barcode(_) => "barcode_mapping"
  }

  function ChangeText(style: Style, c: Change): string {
    Object([Member("data", DataText(style, c)), Member("entity_id", Quoted(c.id)),
            Member("entity_type", Quoted(KindText(c.data))),
            Member("operation", Quoted(if c.op.Upsert? then "upsert" else "delete"))])
  }

  // ---------- A response ----------

  // What the server hashes and how it writes one change.
  datatype Texts = Texts(hash: Comic -> string, change: Change -> string)

  function IdText(texts: Texts, id: MutationId): string {
    match id
    case Text(text) => Quoted(text)
    case V1Write(c) => Quoted("v1:" + texts.hash(c))
    case Bootstrap(c) => Quoted("bootstrap:" + texts.hash(c))
  }

  function ChangeTexts(texts: Texts, cs: seq<Change>): seq<string> {
    seq(|cs|, i requires 0 <= i < |cs| => texts.change(cs[i]))
  }

  function GroupText(texts: Texts, g: PageGroup): string {
    Object([Member("changes", List(ChangeTexts(texts, g.changes))),
            Member("mutation_id", IdText(texts, g.mutationId)),
            Member("revision", Digits(g.revision))])
  }

  function AckText(texts: Texts, a: Ack): string {
    Object([Member("mutation_id", IdText(texts, a.mutationId)),
            Member("revision", Digits(a.revision)),
            Member("status", Quoted(if a.status.Applied? then "applied" else "duplicate"))])
  }

  function AckTexts(texts: Texts, acks: seq<Ack>): seq<string> {
    seq(|acks|, i requires 0 <= i < |acks| => AckText(texts, acks[i]))
  }

  function GroupTexts(texts: Texts, gs: seq<PageGroup>): seq<string> {
    seq(|gs|, i requires 0 <= i < |gs| => GroupText(texts, gs[i]))
  }

  function ResponseText(texts: Texts, serverId: string, r: Response): string {
    Object([Member("acknowledgements", List(AckTexts(texts, r.acks))),
            Member("change_groups", List(GroupTexts(texts, r.groups))),
            Member("has_more", Truth(r.hasMore)),
            Member("next_cursor", Digits(r.nextCursor)),
            Member("protocol", "2"),
            Member("request_id", Quoted(r.requestId)),
            Member("server_id", Quoted(serverId)),
            Member("server_time", Digits(r.serverTime))])
  }

  // Hashes have 64 hexadecimal digits, and changes the size that is counted for them.
  ghost predicate Fitting(env: Env, texts: Texts) {
    (forall c :: IsHexDigest(texts.hash(c))) && forall c :: Bytes(texts.change(c)) == env.changeBytes(c)
  }

  // ---------- Sizes of texts ----------

  predicate IsAscii(s: string) {
    forall i :: 0 <= i < |s| ==> s[i] < '\U{80}'
  }

  lemma AsciiConcat(a: string, b: string)
    requires IsAscii(a)
    ensures Bytes(a + b) == |a| + Bytes(b) && (IsAscii(b) ==> IsAscii(a + b))
  {
    hide Encode;
    BytesOfConcat(a, b);
    AsciiBytes(a);
  }

  lemma EscapeBytes(c: char)
    ensures Bytes(Escape(c)) == EscapedBytes(c)
  {
    if |Escape(c)| > 1 {
      assert IsAscii(Escape(c));
      AsciiBytes(Escape(c));
    } else {
      assert Escape(c) == [c];
      OneChar(c);
    }
  }

  lemma OneChar(c: char)
    ensures Bytes([c]) == |EncodeChar(c)|
  {
    assert [c][1..] == [];
    assert Encode([c]) == EncodeChar(c) + Encode([]);
  }

  lemma {:induction false} EscapedSize(s: string)
    ensures 2 + Bytes(Escaped(s)) == QuotedBytes(s)
  {
    hide Encode, Escape, EscapedBytes;
    if s == [] {
      assert Bytes("") == 0 by { NothingEncoded(); }
    } else {
      EscapedSize(s[1..]);
      EscapeBytes(s[0]);
      BytesOfConcat(Escape(s[0]), Escaped(s[1..]));
    }
  }

  lemma QuotedSize(s: string)
    ensures Bytes(Quoted(s)) == QuotedBytes(s)
  {
    hide Encode, Escaped, QuotedBytes;
    EscapedSize(s);
    assert IsAscii("\"");
    AsciiConcat("\"", Escaped(s) + "\"");
    assert Quoted(s) == "\"" + (Escaped(s) + "\"");
    BytesOfConcat(Escaped(s), "\"");
    AsciiBytes("\"");
  }

  lemma MemberSize(key: string, value: string)
    requires IsAscii(key)
    ensures Bytes(Member(key, value)) == |key| + 3 + Bytes(value)
  {
    hide Encode;
    var head := "\"" + key + "\":";
    assert IsAscii(head);
    AsciiConcat(head, value);
  }

  lemma {:induction false} DigitsAreAscii(n: nat)
    ensures IsAscii(Digits(n))
  {
    if n >= 10 {
      DigitsAreAscii(n / 10);
    }
  }

  lemma NumberSize(n: nat)
    ensures Bytes(Digits(n)) == |Digits(n)|
  {
    hide Digits, Encode;
    DigitsAreAscii(n);
    AsciiBytes(Digits(n));
  }

  function SumOfSizes(items: seq<string>): nat {
    if items == [] then 0 else SumOfSizes(items[..|items| - 1]) + Bytes(items[|items| - 1])
  }

  lemma {:induction false} JoinSize(items: seq<string>)
    ensures Bytes(Join(items)) == SumOfSizes(items) + Commas(|items|)
  {
    hide Encode;
    if items == [] {
      NothingEncoded();
    } else {
      var init, last := items[..|items| - 1], items[|items| - 1];
      JoinSize(init);
      if |items| > 1 {
        BytesOfConcat(Join(init) + ",", last);
        BytesOfConcat(Join(init), ",");
        assert IsAscii(",");
        AsciiBytes(",");
      }
    }
  }

  lemma EnclosedSize(left: string, items: seq<string>, right: string)
    requires |left| == |right| == 1 && IsAscii(left) && IsAscii(right)
    ensures Bytes(left + Join(items) + right) == 2 + SumOfSizes(items) + Commas(|items|)
  {
    hide Encode, Join;
    JoinSize(items);
    BytesOfConcat(left + Join(items), right);
    BytesOfConcat(left, Join(items));
    AsciiBytes(left);
    AsciiBytes(right);
  }

  // ---------- Sizes of objects ----------

  lemma SizeStep(items: seq<string>, x: string)
    ensures SumOfSizes(items + [x]) == SumOfSizes(items) + Bytes(x)
  {
    assert (items + [x])[..|items|] == items;
  }

  lemma SizeOfThree(a: string, b: string, c: string)
    ensures SumOfSizes([a, b, c]) == Bytes(a) + Bytes(b) + Bytes(c)
  {
    hide Encode, SumOfSizes;
    assert SumOfSizes([]) == 0 by { NoSizes(); }
    SizeStep([], a);
    SizeStep([a], b);
    SizeStep([a, b], c);
    assert [] + [a] == [a] && [a] + [b] == [a, b] && [a, b] + [c] == [a, b, c];
  }

  lemma NoSizes()
    ensures SumOfSizes([]) == 0
  {
  }

  lemma ThreeMembersSize(a: string, b: string, c: string)
    ensures Bytes(Object([a, b, c])) == 4 + Bytes(a) + Bytes(b) + Bytes(c)
  {
    hide Encode, SumOfSizes, Join;
    assert IsAscii("{") && IsAscii("}");
    EnclosedSize("{", [a, b, c], "}");
    SizeOfThree(a, b, c);
  }

  lemma ListSize(items: seq<string>)
    ensures Bytes(List(items)) == 2 + SumOfSizes(items) + Commas(|items|)
  {
    hide Encode, SumOfSizes, Join;
    assert IsAscii("[") && IsAscii("]");
    EnclosedSize("[", items, "]");
  }

  lemma {:induction false} ChangesSize(env: Env, texts: Texts, cs: seq<Change>)
    requires Fitting(env, texts)
    ensures SumOfSizes(ChangeTexts(texts, cs)) == SumOfChanges(env, cs)
  {
    hide Encode;
    if cs != [] {
      ChangesSize(env, texts, cs[..|cs| - 1]);
      assert ChangeTexts(texts, cs)[..|cs| - 1] == ChangeTexts(texts, cs[..|cs| - 1]);
    }
  }

  // Plain text is written as it is.
  lemma {:induction false} PlainQuotes(s: string)
    requires forall i :: 0 <= i < |s| ==> 'a' <= s[i] <= 'z' || '0' <= s[i] <= '9' || s[i] == ':'
    ensures QuotedBytes(s) == 2 + |s|
  {
    if s != [] {
      PlainQuotes(s[1..]);
    }
  }

  lemma IdSize(env: Env, texts: Texts, id: MutationId)
    requires Fitting(env, texts)
    ensures Bytes(IdText(texts, id)) == IdBytes(id)
  {
    hide Encode, Quoted, QuotedBytes;
    match id
    case Text(text) => QuotedSize(text);
    case V1Write(c) =>
      assert IsHexDigest(texts.hash(c));
      QuotedSize("v1:" + texts.hash(c));
      PlainQuotes("v1:" + texts.hash(c));
    case Bootstrap(c) =>
      assert IsHexDigest(texts.hash(c));
      QuotedSize("bootstrap:" + texts.hash(c));
      PlainQuotes("bootstrap:" + texts.hash(c));
  }

  lemma GroupSize(env: Env, texts: Texts, g: PageGroup)
    requires Fitting(env, texts)
    ensures Bytes(GroupText(texts, g)) == GroupBytes(env, g)
  {
    hide Encode, Digits, Fitting, SumOfSizes, SumOfChanges, Join, IdText, Member, List, ChangeTexts, IdBytes;
    var changes, id := List(ChangeTexts(texts, g.changes)), IdText(texts, g.mutationId);
    ListSize(ChangeTexts(texts, g.changes));
    ChangesSize(env, texts, g.changes);
    IdSize(env, texts, g.mutationId);
    NumberSize(g.revision);
    PlainKeys();
    MemberSize("changes", changes);
    MemberSize("mutation_id", id);
    MemberSize("revision", Digits(g.revision));
    ThreeMembersSize(Member("changes", changes), Member("mutation_id", id), Member("revision", Digits(g.revision)));
    assert |ChangeTexts(texts, g.changes)| == |g.changes| by { SameLength(texts, g.changes); }
  }

  lemma SameLength(texts: Texts, cs: seq<Change>)
    ensures |ChangeTexts(texts, cs)| == |cs|
  {
  }

  // The keys of the objects are plain text, as long as they look.
  lemma PlainKeys()
    ensures IsAscii("changes") && |"changes"| == 7 && IsAscii("mutation_id") && |"mutation_id"| == 11
    ensures IsAscii("revision") && |"revision"| == 8 && IsAscii("status") && |"status"| == 6
    ensures IsAscii("acknowledgements") && |"acknowledgements"| == 16 && IsAscii("change_groups") && |"change_groups"| == 13
    ensures IsAscii("has_more") && |"has_more"| == 8 && IsAscii("next_cursor") && |"next_cursor"| == 11
    ensures IsAscii("protocol") && |"protocol"| == 8 && IsAscii("request_id") && |"request_id"| == 10
    ensures IsAscii("server_id") && |"server_id"| == 9 && IsAscii("server_time") && |"server_time"| == 11
  {
  }

  lemma StatusSize(status: AckStatus)
    ensures Bytes(Quoted(if status.Applied? then "applied" else "duplicate")) == if status.Applied? then 9 else 11
  {
    hide Quoted, Encode, QuotedBytes;
    QuotedSize("applied");
    QuotedSize("duplicate");
    assert |"applied"| == 7 && |"duplicate"| == 9;
    PlainQuotes("applied");
    PlainQuotes("duplicate");
  }

  lemma AckSize(env: Env, texts: Texts, a: Ack)
    requires Fitting(env, texts)
    ensures Bytes(AckText(texts, a)) == AckBytes(a)
  {
    hide Encode, Digits, Fitting, SumOfSizes, Join, IdText, Member, IdBytes, Quoted;
    var id, status := IdText(texts, a.mutationId), Quoted(if a.status.Applied? then "applied" else "duplicate");
    IdSize(env, texts, a.mutationId);
    NumberSize(a.revision);
    StatusSize(a.status);
    PlainKeys();
    MemberSize("mutation_id", id);
    MemberSize("revision", Digits(a.revision));
    MemberSize("status", status);
    ThreeMembersSize(Member("mutation_id", id), Member("revision", Digits(a.revision)), Member("status", status));
  }

  lemma {:induction false} AcksSize(env: Env, texts: Texts, acks: seq<Ack>)
    requires Fitting(env, texts)
    ensures |AckTexts(texts, acks)| == |acks| && SumOfSizes(AckTexts(texts, acks)) == SumOfAcks(acks)
  {
    hide Encode, AckText, AckBytes, Fitting;
    if acks != [] {
      AcksSize(env, texts, acks[..|acks| - 1]);
      AckSize(env, texts, acks[|acks| - 1]);
      assert AckTexts(texts, acks)[..|acks| - 1] == AckTexts(texts, acks[..|acks| - 1]);
    }
  }

  lemma {:induction false} GroupsSize(env: Env, texts: Texts, gs: seq<PageGroup>)
    requires Fitting(env, texts)
    ensures |GroupTexts(texts, gs)| == |gs| && SumOfSizes(GroupTexts(texts, gs)) == SumOfGroups(env, gs)
  {
    hide Encode, GroupText, GroupBytes, Fitting;
    if gs != [] {
      GroupsSize(env, texts, gs[..|gs| - 1]);
      GroupSize(env, texts, gs[|gs| - 1]);
      assert GroupTexts(texts, gs)[..|gs| - 1] == GroupTexts(texts, gs[..|gs| - 1]);
    }
  }

  lemma SizeOfEight(a: string, b: string, c: string, d: string, e: string, f: string, g: string, h: string)
    ensures Bytes(Object([a, b, c, d, e, f, g, h]))
            == 9 + Bytes(a) + Bytes(b) + Bytes(c) + Bytes(d) + Bytes(e) + Bytes(f) + Bytes(g) + Bytes(h)
  {
    hide Encode, SumOfSizes, Join;
    assert IsAscii("{") && IsAscii("}");
    EnclosedSize("{", [a, b, c, d, e, f, g, h], "}");
    SizeOfThree(a, b, c);
    SizeStep([a, b, c], d);
    SizeStep([a, b, c, d], e);
    SizeStep([a, b, c, d, e], f);
    SizeStep([a, b, c, d, e, f], g);
    SizeStep([a, b, c, d, e, f, g], h);
    assert [a, b, c] + [d] == [a, b, c, d] && [a, b, c, d] + [e] == [a, b, c, d, e];
    assert [a, b, c, d, e] + [f] == [a, b, c, d, e, f] && [a, b, c, d, e, f] + [g] == [a, b, c, d, e, f, g];
    assert [a, b, c, d, e, f, g] + [h] == [a, b, c, d, e, f, g, h];
  }

  lemma TruthSize(b: bool)
    ensures Bytes(Truth(b)) == if b then 4 else 5
  {
    assert IsAscii("true") && IsAscii("false") && |"true"| == 4 && |"false"| == 5;
    AsciiBytes(Truth(b));
  }

  // The size the server measures is that of the text it sends.
  lemma ResponseSize(env: Env, texts: Texts, serverId: string, r: Response)
    requires Fitting(env, texts)
    ensures Bytes(ResponseText(texts, serverId, r)) == ResponseBytes(env, serverId, r)
  {
    hide Encode, Digits, Fitting, SumOfSizes, SumOfAcks, SumOfGroups, Join, Member, List, AckTexts, GroupTexts, Quoted,
         QuotedBytes, Truth, Object;
    var acks, groups := List(AckTexts(texts, r.acks)), List(GroupTexts(texts, r.groups));
    ListSize(AckTexts(texts, r.acks));
    AcksSize(env, texts, r.acks);
    ListSize(GroupTexts(texts, r.groups));
    GroupsSize(env, texts, r.groups);
    TruthSize(r.hasMore);
    NumberSize(r.nextCursor);
    NumberSize(r.serverTime);
    QuotedSize(r.requestId);
    QuotedSize(serverId);
    assert IsAscii("2") && |"2"| == 1;
    AsciiBytes("2");
    PlainKeys();
    MemberSize("acknowledgements", acks);
    MemberSize("change_groups", groups);
    MemberSize("has_more", Truth(r.hasMore));
    MemberSize("next_cursor", Digits(r.nextCursor));
    MemberSize("protocol", "2");
    MemberSize("request_id", Quoted(r.requestId));
    MemberSize("server_id", Quoted(serverId));
    MemberSize("server_time", Digits(r.serverTime));
    SizeOfEight(Member("acknowledgements", acks), Member("change_groups", groups), Member("has_more", Truth(r.hasMore)),
                Member("next_cursor", Digits(r.nextCursor)), Member("protocol", "2"),
                Member("request_id", Quoted(r.requestId)), Member("server_id", Quoted(serverId)),
                Member("server_time", Digits(r.serverTime)));
  }

  // A row of the cache counts the text of its response, a hash and its id.
  lemma CacheRowSize(env: Env, texts: Texts, serverId: string, row: CacheRow, hash: string)
    requires Fitting(env, texts) && IsHexDigest(hash)
    ensures RowBytes(env, serverId, row)
            == Bytes(ResponseText(texts, serverId, row.response)) + Bytes(hash) + Bytes(row.requestId)
  {
    hide Encode, ResponseText, ResponseBytes, Fitting;
    ResponseSize(env, texts, serverId, row.response);
    AsciiBytes(hash);
  }

  // ---------- Sizes of changes ----------

  lemma {:induction false} SizeOfConcat(a: seq<string>, b: seq<string>)
    ensures SumOfSizes(a + b) == SumOfSizes(a) + SumOfSizes(b)
  {
    hide Encode;
    if b == [] {
      assert a + b == a;
    } else {
      SizeOfConcat(a, b[..|b| - 1]);
      assert (a + b)[..|a + b| - 1] == a + b[..|b| - 1];
    }
  }

  lemma SizeOfFive(a: string, b: string, c: string, d: string, e: string)
    ensures SumOfSizes([a, b, c, d]) == Bytes(a) + Bytes(b) + Bytes(c) + Bytes(d)
    ensures SumOfSizes([a, b, c, d, e]) == Bytes(a) + Bytes(b) + Bytes(c) + Bytes(d) + Bytes(e)
  {
    hide Encode, SumOfSizes;
    SizeOfThree(a, b, c);
    SizeStep([a, b, c], d);
    SizeStep([a, b, c, d], e);
    assert [a, b, c] + [d] == [a, b, c, d] && [a, b, c, d] + [e] == [a, b, c, d, e];
  }

  lemma SizeOfTwo(a: string, b: string)
    ensures SumOfSizes([a]) == Bytes(a) && SumOfSizes([a, b]) == Bytes(a) + Bytes(b)
  {
    hide Encode, SumOfSizes;
    NoSizes();
    SizeStep([], a);
    SizeStep([a], b);
    assert [] + [a] == [a] && [a] + [b] == [a, b];
  }

  lemma ObjectSize(members: seq<string>)
    ensures Bytes(Object(members)) == 2 + SumOfSizes(members) + Commas(|members|)
  {
    hide Encode, SumOfSizes, Join;
    assert IsAscii("{") && IsAscii("}");
    EnclosedSize("{", members, "}");
  }

  lemma NullSize()
    ensures Bytes("null") == 4
  {
    assert IsAscii("null") && |"null"| == 4;
    AsciiBytes("null");
  }

  lemma IntSize(n: int)
    ensures Bytes(IntText(n)) == IntBytes(n)
  {
    hide Digits, Encode;
    if n < 0 {
      assert IsAscii("-");
      AsciiConcat("-", Digits(-n));
      NumberSize(-n);
    } else {
      NumberSize(n);
    }
  }

  lemma NullableSize(n: Option<int>)
    ensures Bytes(NullableText(n)) == NullableBytes(n)
  {
    hide Encode, IntText, IntBytes;
    NullSize();
    if n.Some? {
      IntSize(n.value);
    }
  }

  ghost predicate ShortPrices(style: Style) {
    forall p :: Bytes(style.price(p)) <= 24
  }

  lemma PriceSize(style: Style, p: Option<Number>)
    requires ShortPrices(style)
    ensures Bytes(PriceText(style, p)) <= PriceBytes(p) && (p.None? ==> Bytes(PriceText(style, p)) == PriceBytes(p))
  {
    hide Encode;
    NullSize();
  }

  // A member whose value is quoted text.
  lemma TextMember(key: string, s: string)
    requires IsAscii(key)
    ensures Bytes(Member(key, Quoted(s))) == |key| + 3 + QuotedBytes(s)
  {
    hide Encode, Quoted, QuotedBytes, Member;
    MemberSize(key, Quoted(s));
    QuotedSize(s);
  }

  lemma TruthMember(key: string, b: bool)
    requires IsAscii(key)
    ensures Bytes(Member(key, Truth(b))) == |key| + 3 + BoolBytes(b)
  {
    hide Encode, Truth, Member;
    MemberSize(key, Truth(b));
    TruthSize(b);
  }

  lemma IntMember(key: string, n: int)
    requires IsAscii(key)
    ensures Bytes(Member(key, IntText(n))) == |key| + 3 + IntBytes(n)
  {
    hide Encode, IntText, IntBytes, Member;
    MemberSize(key, IntText(n));
    IntSize(n);
  }

  lemma NullableMember(key: string, n: Option<int>)
    requires IsAscii(key)
    ensures Bytes(Member(key, NullableText(n))) == |key| + 3 + NullableBytes(n)
  {
    hide Encode, NullableText, NullableBytes, Member;
    MemberSize(key, NullableText(n));
    NullableSize(n);
  }

  lemma PriceMember(style: Style, key: string, p: Option<Number>)
    requires IsAscii(key) && ShortPrices(style)
    ensures Bytes(Member(key, PriceText(style, p))) <= |key| + 3 + PriceBytes(p)
    ensures p.None? ==> Bytes(Member(key, PriceText(style, p))) == |key| + 3 + PriceBytes(p)
  {
    hide Encode, PriceText, PriceBytes, Member, ShortPrices;
    MemberSize(key, PriceText(style, p));
    PriceSize(style, p);
  }

  lemma IssueKeys()
    ensures IsAscii("artist") && |"artist"| == 6
    ensures IsAscii("deleted") && |"deleted"| == 7
    ensures IsAscii("edition") && |"edition"| == 7
    ensures IsAscii("number") && |"number"| == 6
    ensures IsAscii("page_count") && |"page_count"| == 10
    ensures IsAscii("publisher") && |"publisher"| == 9
    ensures IsAscii("series") && |"series"| == 6
    ensures IsAscii("title") && |"title"| == 5
    ensures IsAscii("writer") && |"writer"| == 6
    ensures IsAscii("year") && |"year"| == 4
  {
  }

  lemma HintKeys()
    ensures IsAscii("edition") && |"edition"| == 7
    ensures IsAscii("id") && |"id"| == 2
    ensures IsAscii("number") && |"number"| == 6
    ensures IsAscii("origin") && |"origin"| == 6
    ensures IsAscii("publisher") && |"publisher"| == 9
    ensures IsAscii("series") && |"series"| == 6
    ensures IsAscii("title") && |"title"| == 5
    ensures IsAscii("year") && |"year"| == 4
  {
  }

  lemma EntryKeys()
    ensures IsAscii("deleted") && |"deleted"| == 7
    ensures IsAscii("is_duplicate") && |"is_duplicate"| == 12
    ensures IsAscii("is_read") && |"is_read"| == 7
    ensures IsAscii("is_wanted") && |"is_wanted"| == 9
    ensures IsAscii("issue_id") && |"issue_id"| == 8
    ensures IsAscii("notes") && |"notes"| == 5
    ensures IsAscii("owned") && |"owned"| == 5
    ensures IsAscii("rating") && |"rating"| == 6
    ensures IsAscii("updated_at") && |"updated_at"| == 10
  {
  }

  lemma CopyKeys()
    ensures IsAscii("active") && |"active"| == 6
    ensures IsAscii("condition_grade") && |"condition_grade"| == 15
    ensures IsAscii("deleted") && |"deleted"| == 7
    ensures IsAscii("estimated_value") && |"estimated_value"| == 15
    ensures IsAscii("issue_id") && |"issue_id"| == 8
    ensures IsAscii("loaned_to") && |"loaned_to"| == 9
    ensures IsAscii("ordinal") && |"ordinal"| == 7
    ensures IsAscii("purchase_price") && |"purchase_price"| == 14
    ensures IsAscii("updated_at") && |"updated_at"| == 10
  {
  }

  lemma ChangeKeys()
    ensures IsAscii("data") && |"data"| == 4
    ensures IsAscii("entity_id") && |"entity_id"| == 9
    ensures IsAscii("entity_type") && |"entity_type"| == 11
    ensures IsAscii("operation") && |"operation"| == 9
    ensures IsAscii("issue_hint") && |"issue_hint"| == 10
  {
  }

  lemma OriginSize(o: Origin)
    ensures QuotedBytes(if o.Bundled? then "bundled" else "custom") == if o.Bundled? then 9 else 8
  {
    assert |"bundled"| == 7 && |"custom"| == 6;
    PlainQuotes("bundled");
    PlainQuotes("custom");
  }

  lemma HintSize(hint: Option<Hint>, issue: string)
    ensures Bytes(HintText(hint, issue)) == HintBytes(hint, issue)
  {
    hide Encode, Member, Quoted, QuotedBytes, IntText, IntBytes, NullableText, NullableBytes, Object;
    NullSize();
    if hint.Some? {
      var h := hint.value;
      var origin := if h.origin.Bundled? then "bundled" else "custom";
      HintKeys();
      OriginSize(h.origin);
      TextMember("edition", h.edition);
      TextMember("id", issue);
      IntMember("number", h.number);
      TextMember("origin", origin);
      TextMember("publisher", h.publisher);
      TextMember("series", h.series);
      TextMember("title", h.title);
      NullableMember("year", h.year);
      SizeOfEight(Member("edition", Quoted(h.edition)), Member("id", Quoted(issue)), Member("number", IntText(h.number)),
                  Member("origin", Quoted(origin)), Member("publisher", Quoted(h.publisher)),
                  Member("series", Quoted(h.series)), Member("title", Quoted(h.title)),
                  Member("year", NullableText(h.year)));
    }
  }

  // What the members before and behind the hint take, separators and braces included.
  lemma IssueSize(style: Style, d: IssueData)
    ensures |Front(style, Issue(d))| == |Back(style, Issue(d))| == 5
    ensures 11 + SumOfSizes(Front(style, Issue(d))) + SumOfSizes(Back(style, Issue(d))) == DataBytes(Issue(d))
  {
    hide Encode, Member, Quoted, QuotedBytes, IntText, IntBytes, NullableText, NullableBytes, Truth, BoolBytes, SumOfSizes;
    IssueKeys();
    TextMember("artist", d.artist);
    TruthMember("deleted", d.deleted);
    TextMember("edition", d.edition);
    IntMember("number", d.number);
    NullableMember("page_count", d.pageCount);
    SizeOfFive(Member("artist", Quoted(d.artist)), Member("deleted", Truth(d.deleted)), Member("edition", Quoted(d.edition)),
               Member("number", IntText(d.number)), Member("page_count", NullableText(d.pageCount)));
    TextMember("publisher", d.publisher);
    TextMember("series", d.series);
    TextMember("title", d.title);
    TextMember("writer", d.writer);
    NullableMember("year", d.year);
    SizeOfFive(Member("publisher", Quoted(d.publisher)), Member("series", Quoted(d.series)), Member("title", Quoted(d.title)),
               Member("writer", Quoted(d.writer)), Member("year", NullableText(d.year)));
  }

  lemma EntryFront(style: Style, d: EntryData)
    ensures |Front(style, Entry(d))| == 4
    ensures SumOfSizes(Front(style, Entry(d)))
            == 47 + BoolBytes(d.deleted) + BoolBytes(d.isDuplicate) + BoolBytes(d.isRead) + BoolBytes(d.isWanted)
  {
    hide Encode, Member, Truth, BoolBytes, SumOfSizes;
    EntryKeys();
    TruthMember("deleted", d.deleted);
    TruthMember("is_duplicate", d.isDuplicate);
    TruthMember("is_read", d.isRead);
    TruthMember("is_wanted", d.isWanted);
    SizeOfFive(Member("deleted", Truth(d.deleted)), Member("is_duplicate", Truth(d.isDuplicate)),
               Member("is_read", Truth(d.isRead)), Member("is_wanted", Truth(d.isWanted)), "");
  }

  lemma EntryBack(style: Style, d: EntryData)
    ensures |Back(style, Entry(d))| == 5
    ensures SumOfSizes(Back(style, Entry(d)))
            == 49 + QuotedBytes(d.issueId) + QuotedBytes(d.notes) + BoolBytes(d.owned) + IntBytes(d.rating)
               + IntBytes(d.updatedAt)
  {
    hide Encode, Member, Quoted, QuotedBytes, IntText, IntBytes, Truth, BoolBytes, SumOfSizes;
    EntryKeys();
    TextMember("issue_id", d.issueId);
    TextMember("notes", d.notes);
    TruthMember("owned", d.owned);
    IntMember("rating", d.rating);
    IntMember("updated_at", d.updatedAt);
    SizeOfFive(Member("issue_id", Quoted(d.issueId)), Member("notes", Quoted(d.notes)), Member("owned", Truth(d.owned)),
               Member("rating", IntText(d.rating)), Member("updated_at", IntText(d.updatedAt)));
  }

  lemma EntrySize(style: Style, d: EntryData)
    ensures |Front(style, Entry(d))| == 4 && |Back(style, Entry(d))| == 5
    ensures 24 + SumOfSizes(Front(style, Entry(d))) + SumOfSizes(Back(style, Entry(d))) + HintBytes(d.hint, d.issueId)
            == DataBytes(Entry(d))
  {
    hide Encode, Front, Back, QuotedBytes, IntBytes, BoolBytes, SumOfSizes, HintBytes;
    EntryFront(style, d);
    EntryBack(style, d);
  }

  lemma CopySize(style: Style, d: CopyData)
    requires ShortPrices(style)
    ensures |Front(style, Copy(d))| == 4 && |Back(style, Copy(d))| == 5
    ensures var size := 24 + SumOfSizes(Front(style, Copy(d))) + SumOfSizes(Back(style, Copy(d))) + HintBytes(d.hint, d.issueId);
            && size <= DataBytes(Copy(d))
            && (d.purchasePrice.None? && d.estimatedValue.None? ==> size == DataBytes(Copy(d)))
  {
    hide Encode, Member, Quoted, QuotedBytes, IntText, IntBytes, Truth, BoolBytes, SumOfSizes, HintBytes, PriceText,
         PriceBytes, ShortPrices;
    CopyKeys();
    TruthMember("active", d.active);
    TextMember("condition_grade", d.conditionGrade);
    TruthMember("deleted", d.deleted);
    PriceMember(style, "estimated_value", d.estimatedValue);
    SizeOfFive(Member("active", Truth(d.active)), Member("condition_grade", Quoted(d.conditionGrade)),
               Member("deleted", Truth(d.deleted)), Member("estimated_value", PriceText(style, d.estimatedValue)), "");
    TextMember("issue_id", d.issueId);
    TextMember("loaned_to", d.loanedTo);
    IntMember("ordinal", d.ordinal);
    PriceMember(style, "purchase_price", d.purchasePrice);
    IntMember("updated_at", d.updatedAt);
    SizeOfFive(Member("issue_id", Quoted(d.issueId)), Member("loaned_to", Quoted(d.loanedTo)),
               Member("ordinal", IntText(d.ordinal)), Member("purchase_price", PriceText(style, d.purchasePrice)),
               Member("updated_at", IntText(d.updatedAt)));
  }

  lemma BarcodeSize(style: Style, d: BarcodeData)
    ensures |Front(style, Barcode(d))| == 1 && |Back(style, Barcode(d))| == 2
    ensures 18 + SumOfSizes(Front(style, Barcode(d))) + SumOfSizes(Back(style, Barcode(d))) + HintBytes(d.hint, d.issueId)
            == DataBytes(Barcode(d))
  {
    hide Encode, Member, Quoted, QuotedBytes, IntText, IntBytes, Truth, BoolBytes, SumOfSizes, HintBytes;
    EntryKeys();
    TruthMember("deleted", d.deleted);
    TextMember("issue_id", d.issueId);
    IntMember("updated_at", d.updatedAt);
    SizeOfTwo(Member("deleted", Truth(d.deleted)), "");
    SizeOfTwo(Member("issue_id", Quoted(d.issueId)), Member("updated_at", IntText(d.updatedAt)));
  }

  // The hint takes a key, a colon and a comma beside its value, or nothing when it is left out.
  lemma HintMemberSize(style: Style, c: Change)
    requires !c.data.Issue?
    ensures var m := HintMember(style, c);
            && |m| <= 1 && SumOfSizes(m) + |m| <= 14 + HintBytes(HintOf(c.data), ChangeIssue(c))
            && (HintOf(c.data).Some? ==>
                  |m| == 1 && SumOfSizes(m) + |m| == 14 + HintBytes(HintOf(c.data), ChangeIssue(c)))
  {
    hide Encode, Member, HintText, HintBytes, SumOfSizes;
    var text := HintText(HintOf(c.data), ChangeIssue(c));
    NoSizes();
    ChangeKeys();
    HintSize(HintOf(c.data), ChangeIssue(c));
    MemberSize("issue_hint", text);
    SizeOfTwo(Member("issue_hint", text), "");
  }

  lemma DataSize(style: Style, c: Change)
    requires ShortPrices(style)
    ensures Bytes(DataText(style, c)) <= DataBytes(c.data)
    ensures IsExplicit(c) ==> Bytes(DataText(style, c)) == DataBytes(c.data)
  {
    hide Encode, Front, Back, HintMember, SumOfSizes, Object, DataBytes, HintBytes, ShortPrices;
    var front, back := Front(style, c.data), Back(style, c.data);
    var middle := if c.data.Issue? then [] else HintMember(style, c);
    ObjectSize(front + middle + back);
    SizeOfConcat(front + middle, back);
    SizeOfConcat(front, middle);
    NoSizes();
    match c.data
    case Issue(d) => IssueSize(style, d);
    case Entry(d) =>
      EntrySize(style, d);
      HintMemberSize(style, c);
    case Copy(d) =>
      CopySize(style, d);
      HintMemberSize(style, c);
    case Barcode(d) =>
      BarcodeSize(style, d);
      HintMemberSize(style, c);
  }

  lemma KindSize(data: Data)
    ensures Bytes(Quoted(KindText(data))) == KindBytes(data)
  {
    hide Encode, Quoted, QuotedBytes;
    QuotedSize(KindText(data));
    UnderlinedQuotes(KindText(data));
    assert |"custom_issue"| == 12 && |"collection_entry"| == 16 && |"copy"| == 4 && |"barcode_mapping"| == 15;
  }

  lemma {:induction false} UnderlinedQuotes(s: string)
    requires forall i :: 0 <= i < |s| ==> 'a' <= s[i] <= 'z' || s[i] == '_'
    ensures QuotedBytes(s) == 2 + |s|
  {
    if s != [] {
      UnderlinedQuotes(s[1..]);
    }
  }

  lemma OperationSize(op: Operation)
    ensures Bytes(Quoted(if op.Upsert? then "upsert" else "delete")) == 8
  {
    hide Encode, Quoted, QuotedBytes;
    QuotedSize("upsert");
    QuotedSize("delete");
    assert |"upsert"| == 6 && |"delete"| == 6;
    PlainQuotes("upsert");
    PlainQuotes("delete");
  }

  // A change takes as many bytes as counted for it, at most: a price may be shorter and a null hint
  // be left out.
  lemma ChangeSize(style: Style, c: Change)
    requires ShortPrices(style)
    ensures Bytes(ChangeText(style, c)) <= JsonBytes(c)
    ensures IsExplicit(c) ==> Bytes(ChangeText(style, c)) == JsonBytes(c)
  {
    hide Encode, Member, Quoted, QuotedBytes, DataText, DataBytes, SumOfSizes, Object, KindText, KindBytes, ShortPrices,
         IsExplicit;
    var data, id, kind := DataText(style, c), Quoted(c.id), Quoted(KindText(c.data));
    var op := Quoted(if c.op.Upsert? then "upsert" else "delete");
    ChangeKeys();
    DataSize(style, c);
    KindSize(c.data);
    OperationSize(c.op);
    QuotedSize(c.id);
    MemberSize("data", data);
    MemberSize("entity_id", id);
    MemberSize("entity_type", kind);
    MemberSize("operation", op);
    SizeOfFive(Member("data", data), Member("entity_id", id), Member("entity_type", kind), Member("operation", op), "");
    ObjectSize([Member("data", data), Member("entity_id", id), Member("entity_type", kind), Member("operation", op)]);
  }

  // Sizes taken from these texts are what the theorems about sizes assume.
  lemma TextsMeasureJson(env: Env, style: Style)
    requires ShortPrices(style) && forall c :: env.changeBytes(c) == Bytes(ChangeText(style, c))
    ensures MeasuresJson(env)
  {
    hide Encode, ChangeText, JsonBytes, ShortPrices, IsExplicit;
    forall c {
      ChangeSize(style, c);
    }
  }
}
