/** The pages a pool serves (buildPermanentPageJson in pool/PoolDatabase.cpp) and the
    hand-written reader that imports another pool's pages (pool/main.cpp). */
module PageJson {
  import opened Decimal
  import opened Results

  datatype Row = Row(assetId: string, txHash: string, cid: string)

  // Printing.

  function HexDigit(d: nat): char
    requires d < 16
  {
    if d < 10 then ('0' as nat + d) as char else ('a' as nat + (d - 10)) as char
  }

  function EscapeChar(c: char): string {
    if c == '"' then "\\\""
    else if c == '\\' then "\\\\"
    else if c == '\n' then "\\n"
    else if c == '\r' then "\\r"
    else if c == '\t' then "\\t"
    else if c as nat < 32 then "\\u00" + [HexDigit(c as nat / 16), HexDigit(c as nat % 16)]
    else [c]
  }

  function JsonEscape(s: string): string {
    if s == "" then "" else JsonEscape(s[..|s| - 1]) + EscapeChar(s[|s| - 1])
  }

  /** Characters that stand for themselves inside a JSON string. */
  predicate Plain(s: string) {
    forall i :: 0 <= i < |s| ==> s[i] != '"' && s[i] != '\\' && s[i] as nat >= 32
  }

  lemma {:induction false} EscapePlain(s: string)
    requires Plain(s)
    ensures JsonEscape(s) == s
  {
    hide EscapeChar;
    if s != "" {
      PlainFront(s);
      EscapePlain(s[..|s| - 1]);
      EscapeStep(s);
      hide JsonEscape;
      assert s == s[..|s| - 1] + [s[|s| - 1]];
    }
  }

  lemma EscapeStep(s: string)
    requires s != ""
    ensures JsonEscape(s) == JsonEscape(s[..|s| - 1]) + EscapeChar(s[|s| - 1])
  {
  }

  lemma {:induction false} PlainFront(s: string)
    requires Plain(s) && s != ""
    ensures Plain(s[..|s| - 1]) && EscapeChar(s[|s| - 1]) == [s[|s| - 1]]
  {
    PlainChar(s[|s| - 1]);
    hide EscapeChar;
  }

  lemma PlainChar(c: char)
    requires c != '"' && c != '\\' && c as nat >= 32
    ensures EscapeChar(c) == [c]
  {
  }

  function HexValue(c: char): Result<nat> {
    if '0' <= c <= '9' then Ok(c as nat - '0' as nat)
    else if 'a' <= c <= 'f' then Ok(c as nat - 'a' as nat + 10)
    else Err
  }

  function Behind(front: string, r: Result<string>): Result<string> {
    match r
    case Ok(t) => Ok(front + t)
    case Err => Err
  }

  /** The inside of a JSON string, read by section 7 of RFC 8259 as far as this printer
      uses it: no quotation mark or control character stands for itself. */
  function Unescaped(s: string): Result<string> {
    if s == "" then Ok("")
    else if s[0] == '"' || s[0] as nat < 32 then Err
    else if s[0] != '\\' then Behind([s[0]], Unescaped(s[1..]))
    else if |s| == 1 then Err
    else if s[1] == '"' || s[1] == '\\' then Behind([s[1]], Unescaped(s[2..]))
    else if s[1] == 'n' then Behind("\n", Unescaped(s[2..]))
    else if s[1] == 'r' then Behind("\r", Unescaped(s[2..]))
    else if s[1] == 't' then Behind("\t", Unescaped(s[2..]))
    else if "u00" <= s[1..] && |s| >= 6 then
      var high :- HexValue(s[4]);
      var low :- HexValue(s[5]);
      Behind([(16 * high + low) as char], Unescaped(s[6..]))
    else Err
  }

  lemma {:induction false} EscapedFront(s: string)
    requires s != ""
    ensures JsonEscape(s) == EscapeChar(s[0]) + JsonEscape(s[1..])
  {
    hide EscapeChar;
    var front := s[..|s| - 1];
    if front != "" {
      EscapedFront(front);
      EscapeStep(s);
      EscapeStep(s[1..]);
      hide JsonEscape;
      assert s[1..][..|s[1..]| - 1] == front[1..];
    } else {
      EscapeStep(s);
      assert s[1..] == "" && front == "";
      assert JsonEscape("") == "";
    }
  }

  lemma {:induction false} HexDigits(d: nat)
    requires d < 16
    ensures HexValue(HexDigit(d)) == Ok(d)
  {
  }

  /** An escaped character and what follows it. */
  lemma {:induction false} UnescapedChar(c: char, t: string)
    ensures Unescaped(EscapeChar(c) + t) == Behind([c], Unescaped(t))
  {
    var s := EscapeChar(c) + t;
    HexDigits(c as nat % 16);
    hide HexValue, HexDigit;
    if |EscapeChar(c)| == 1 {
      assert s[1..] == t;
    } else if |EscapeChar(c)| == 2 {
      assert s[2..] == t;
    } else {
      HexDigits(c as nat / 16);
      assert s[6..] == t;
    }
  }

  /** Every text, whatever stands in it, is a JSON string that reads back as itself. */
  lemma {:induction false} EscapeReadsBack(s: string)
    ensures Unescaped(JsonEscape(s)) == Ok(s)
  {
    if s != "" {
      EscapedFront(s);
      EscapeReadsBack(s[1..]);
      hide JsonEscape, EscapeChar, Unescaped;
      UnescapedChar(s[0], JsonEscape(s[1..]));
      assert [s[0]] + s[1..] == s;
    } else {
      assert JsonEscape(s) == "";
    }
  }

  function Key(r: Row): string {
    r.assetId + "-" + r.txHash
  }

  function Opening(key: string): string {
    "\"" + JsonEscape(key) + "\":["
  }

  /** What stands between the value before and a value of this key; no key yet is "". */
  function Glue(before: string, key: string): string {
    if key == before then "," else (if before == "" then "" else "],") + Opening(key)
  }

  function Value(r: Row): string {
    "\"" + JsonEscape(r.cid) + "\""
  }

  function LastKey(rows: seq<Row>): string {
    if rows == [] then "" else Key(rows[|rows| - 1])
  }

  function Printed(rows: seq<Row>): string {
    if rows == [] then ""
    else
      var front, r := rows[..|rows| - 1], rows[|rows| - 1];
      Printed(front) + Glue(LastKey(front), Key(r)) + Value(r)
  }

  const OPEN := "{\"changes\":{"

  function Tail(daily: string, done: bool): string {
    "},\"daily\":\"" + JsonEscape(daily) + "\",\"done\":" + (if done then "true" else "false") + "}"
  }

  function Page(rows: seq<Row>, daily: string, done: bool): string {
    OPEN + Printed(rows) + (if rows == [] then "" else "]") + Tail(daily, done)
  }

  function Envelope(page: nat): string {
    "{\"error\":\"page " + Text(page) + " not populated\"}"
  }

  /** One row: its key if it differs from the one being written, then its value. */
  method PrintRow(json: string, r: Row, currentKey: string, firstKey: bool) returns (longer: string, key: string)
    requires currentKey == "" <==> firstKey
    ensures key == Key(r)
    ensures longer == json + Glue(currentKey, key) + Value(r)
  {
    hide JsonEscape;
    longer := json;
    var firstCidForKey := false;
    key := r.assetId + "-" + r.txHash;
    if key != currentKey {
      if !firstKey {
        longer := longer + "],";
      }
      firstCidForKey := true;
      longer := longer + "\"" + JsonEscape(key) + "\":[";
    }
    if !firstCidForKey {
      longer := longer + ",";
    }
    longer := longer + "\"" + JsonEscape(r.cid) + "\"";
  }

  lemma {:induction false} PrintedMore(rows: seq<Row>, r: Row)
    ensures Printed(rows + [r]) == Printed(rows) + Glue(LastKey(rows), Key(r)) + Value(r)
  {
    hide JsonEscape, Glue, Value, LastKey;
    assert (rows + [r])[..|rows|] == rows;
  }

  // pool/PoolDatabase.cpp:1028-1099
  method BuildPermanentPageJson(rows: seq<Row>, daily: string, done: bool, page: nat) returns (json: string)
    ensures json == if rows == [] then Envelope(page) else Page(rows, daily, done)
  {
    hide JsonEscape, Text, Printed, Value, Glue, Tail, LastKey;
    json := OPEN;
    var anyRows, firstKey, currentKey := false, true, "";
    PrintedNone();
    for i := 0 to |rows|
      invariant json == OPEN + Printed(rows[..i])
      invariant anyRows == !firstKey == (i > 0)
      invariant currentKey == LastKey(rows[..i]) && (currentKey == "" <==> i == 0)
    {
      assert rows[..i + 1] == rows[..i] + [rows[i]];
      anyRows := true;
      PrintedMore(rows[..i], rows[i]);
      LastKeyOf(rows, i);
      json, currentKey := PrintRow(json, rows[i], currentKey, firstKey);
      firstKey := false;
    }
    assert rows[..|rows|] == rows;
    if !firstKey {
      json := json + "]";
    }
    json := PrintTail(json, daily, done);
    if !anyRows {
      json := "{\"error\":\"page " + Text(page) + " not populated\"}";
    }
  }

  lemma LastKeyOf(rows: seq<Row>, i: nat)
    requires i < |rows|
    ensures LastKey(rows[..i + 1]) == Key(rows[i]) != ""
  {
  }

  lemma PrintedNone()
    ensures Printed([]) == "" && LastKey([]) == ""
  {
  }

  // One array for each run of equal keys.

  datatype Group = Group(key: string, cids: seq<string>)

  function Quoted(s: string): string {
    "\"" + JsonEscape(s) + "\""
  }

  function Comma<T>(before: seq<T>): string {
    if before == [] then "" else ","
  }

  function QuotedList(items: seq<string>): string {
    if items == [] then ""
    else
      var front := items[..|items| - 1];
      QuotedList(front) + Comma(front) + Quoted(items[|items| - 1])
  }

  function Member(g: Group): string {
    Quoted(g.key) + ":[" + QuotedList(g.cids) + "]"
  }

  function Members(groups: seq<Group>): string {
    if groups == [] then ""
    else
      var front := groups[..|groups| - 1];
      Members(front) + Comma(front) + Member(groups[|groups| - 1])
  }

  /** The pairs of a key and a CID, in their order. */
  function Pairs(groups: seq<Group>): seq<(string, string)> {
    if groups == [] then []
    else Pairs(groups[..|groups| - 1]) + Under(groups[|groups| - 1].key, groups[|groups| - 1].cids)
  }

  function Under(key: string, cids: seq<string>): seq<(string, string)> {
    seq(|cids|, i requires 0 <= i < |cids| => (key, cids[i]))
  }

  function PairsOf(rows: seq<Row>): seq<(string, string)> {
    seq(|rows|, i requires 0 <= i < |rows| => (rows[i].assetId + "-" + rows[i].txHash, rows[i].cid))
  }

  /** The rows in their order, in runs of equal keys as long as they go: none empty, no
      two of one key side by side. */
  ghost predicate RunsOf(groups: seq<Group>, rows: seq<Row>) {
    && Pairs(groups) == PairsOf(rows)
    && (forall i :: 0 <= i < |groups| ==> groups[i].cids != [])
    && forall i :: 0 < i < |groups| ==> groups[i - 1].key != groups[i].key
  }

  lemma {:induction false} LastRun(groups: seq<Group>, rows: seq<Row>)
    requires RunsOf(groups, rows)
    ensures LastKey(rows) == if groups == [] then "" else groups[|groups| - 1].key
    ensures groups == [] <==> rows == []
    ensures groups != [] ==> groups[|groups| - 1].cids != [] && groups[|groups| - 1].key != ""
  {
    if groups != [] {
      var g := groups[|groups| - 1];
      var front := Pairs(groups[..|groups| - 1]);
      assert Pairs(groups) == front + Under(g.key, g.cids);
      assert Pairs(groups)[|rows| - 1] == Under(g.key, g.cids)[|g.cids| - 1];
    }
  }

  /** With one more row: behind the last run where its key is that run's, else a run of its own. */
  ghost function Grown(groups: seq<Group>, r: Row): seq<Group> {
    var n := |groups|;
    if n > 0 && groups[n - 1].key == Key(r)
    then groups[..n - 1] + [Group(Key(r), groups[n - 1].cids + [r.cid])]
    else groups + [Group(Key(r), [r.cid])]
  }

  lemma {:induction false} PairsMore(groups: seq<Group>, g: Group)
    ensures Pairs(groups + [g]) == Pairs(groups) + Under(g.key, g.cids)
  {
    hide Under;
    assert (groups + [g])[..|groups|] == groups;
  }

  lemma {:induction false} GrownPairs(groups: seq<Group>, r: Row)
    ensures Pairs(Grown(groups, r)) == Pairs(groups) + [(Key(r), r.cid)]
  {
    hide Key, Pairs;
    var n := |groups|;
    if n > 0 && groups[n - 1].key == Key(r) {
      var front, g := groups[..n - 1], groups[n - 1];
      assert groups == front + [g];
      PairsMore(front, g);
      PairsMore(front, Group(Key(r), g.cids + [r.cid]));
      assert Under(Key(r), g.cids + [r.cid]) == Under(Key(r), g.cids) + [(Key(r), r.cid)];
    } else {
      PairsMore(groups, Group(Key(r), [r.cid]));
      assert Under(Key(r), [r.cid]) == [(Key(r), r.cid)];
    }
  }

  lemma {:induction false} GrownRuns(groups: seq<Group>, rows: seq<Row>, r: Row)
    requires RunsOf(groups, rows)
    ensures RunsOf(Grown(groups, r), rows + [r])
  {
    GrownPairs(groups, r);
    assert PairsOf(rows + [r]) == PairsOf(rows) + [(Key(r), r.cid)];
    hide Pairs, PairsOf, Key;
  }

  lemma {:induction false} MembersMore(groups: seq<Group>, g: Group)
    ensures Members(groups + [g]) == Members(groups) + Comma(groups) + Member(g)
  {
    hide Member;
    assert (groups + [g])[..|groups|] == groups;
  }

  lemma {:induction false} ListMore(items: seq<string>, x: string)
    ensures QuotedList(items + [x]) == QuotedList(items) + Comma(items) + Quoted(x)
  {
    hide Quoted;
    assert (items + [x])[..|items|] == items;
  }

  lemma {:induction false} ListOne(x: string)
    ensures QuotedList([x]) == Quoted(x)
  {
    hide Quoted;
    ListMore([], x);
    assert [] + [x] == [x];
  }

  lemma {:induction false} Reopened(printed: string, a: string, k: string, l: string, x: string)
    requires printed + "]" == a + (k + l + "]")
    ensures printed + "," + x + "]" == a + (k + (l + "," + x) + "]")
  {
    assert a + (k + l + "]") == (a + k + l) + "]";
    assert printed == (printed + "]")[..|printed|] == a + k + l;
  }

  lemma {:induction false} GrownText(groups: seq<Group>, printed: string, r: Row)
    requires groups != [] && groups[|groups| - 1].cids != [] && printed + "]" == Members(groups)
    requires groups[|groups| - 1].key != ""
    ensures printed + Glue(groups[|groups| - 1].key, Key(r)) + Value(r) + "]" == Members(Grown(groups, r))
  {
    hide JsonEscape, Key, Members, QuotedList;
    var n := |groups|;
    var front, g := groups[..n - 1], groups[n - 1];
    assert groups == front + [g];
    assert Quoted(r.cid) == Value(r);
    if g.key == Key(r) {
      MembersMore(front, g);
      MembersMore(front, Group(Key(r), g.cids + [r.cid]));
      ListMore(g.cids, r.cid);
      Reopened(printed, Members(front) + Comma(front), Quoted(g.key) + ":[", QuotedList(g.cids), Value(r));
    } else {
      MembersMore(groups, Group(Key(r), [r.cid]));
      ListOne(r.cid);
      hide Value;
      NewArray(printed, Quoted(Key(r)), Value(r));
      assert Opening(Key(r)) == Quoted(Key(r)) + ":[";
    }
  }

  lemma {:induction false} NewArray(printed: string, key: string, value: string)
    ensures printed + ("]," + (key + ":[")) + value + "]" == (printed + "]") + "," + (key + ":[" + value + "]")
  {
  }

  lemma NoRuns()
    ensures RunsOf([], [])
  {
  }

  lemma {:induction false} FirstMember(r: Row)
    ensures Printed([]) + Glue("", Key(r)) + Value(r) + "]" == Members(Grown([], r))
  {
    hide JsonEscape, Key, Members, QuotedList;
    KeyIs(r);
    PrintedNone();
    ListOne(r.cid);
    MembersMore([], Group(Key(r), [r.cid]));
    assert Members([]) == "" by { NoMembers(); }
    assert [] + [Group(Key(r), [r.cid])] == Grown([], r);
    assert Quoted(r.cid) == Value(r) && Opening(Key(r)) == Quoted(Key(r)) + ":[";
  }

  lemma NoMembers()
    ensures Members([]) == ""
  {
  }

  lemma KeyIs(r: Row)
    ensures Key(r) == r.assetId + "-" + r.txHash != ""
  {
  }

  /** What the printing loop writes is one member for each run of rows with the same key,
      holding that run's CIDs in order. */
  lemma {:induction false} OneArrayPerRun(rows: seq<Row>) returns (groups: seq<Group>)
    ensures RunsOf(groups, rows)
    ensures rows != [] ==> Printed(rows) + "]" == Members(groups)
  {
    hide JsonEscape, Printed, Members, Glue, Value, Key, RunsOf, Grown, LastKey;
    if rows == [] {
      NoRuns();
      groups := [];
    } else {
      var front, r := rows[..|rows| - 1], rows[|rows| - 1];
      var before := OneArrayPerRun(front);
      groups := Grown(before, r);
      assert rows == front + [r];
      GrownRuns(before, front, r);
      PrintedMore(front, r);
      LastRun(before, front);
      if front == [] {
        FirstMember(r);
      } else {
        GrownText(before, Printed(front), r);
      }
    }
  }

  method PrintTail(json: string, daily: string, done: bool) returns (longer: string)
    ensures longer == json + Tail(daily, done)
  {
    hide JsonEscape;
    longer := json + "},";
    longer := longer + "\"daily\":\"" + JsonEscape(daily) + "\",";
    longer := longer + "\"done\":" + (if done then "true" else "false");
    longer := longer + "}";
  }

  // Reading. What the reader makes of the text from its position on.

  predicate KeyStart(c: char) {
    c == '"' || c == '}' || c == '{'
  }

  predicate CidStart(c: char) {
    c == '"' || c == ']'
  }

  predicate IsSpace(c: char) {
    c == ' ' || ('\t' <= c <= '\r')
  }

  predicate Separator(c: char) {
    c == ',' || IsSpace(c)
  }

  predicate NoSeparator(c: char) {
    !Separator(c)
  }

  predicate Bracket(c: char) {
    c == '['
  }

  /** From the first character that stops the scan on. */
  function Scanned(s: string, stop: char -> bool): (t: string)
    ensures |t| <= |s| && (t != "" ==> stop(t[0]))
    ensures s != "" && stop(s[0]) ==> t == s
  {
    if s == "" || stop(s[0]) then s else Scanned(s[1..], stop)
  }

  function RowOf(key: string, cid: string): Row {
    if '-' in key then Row(Before(key, '-'), After(key, '-'), cid) else Row(key, "", cid)
  }

  /** The rows of an object's rest, depth objects deep. */
  function ReadObject(s: string, depth: nat): seq<Row>
    decreases |s|, 0
  {
    var t := Scanned(s, KeyStart);
    if depth == 0 || t == "" then []
    else if t[0] == '}' then ReadObject(t[1..], depth - 1)
    else if t[0] == '{' then ReadObject(t[1..], depth + 1)
    else if '"' !in t[1..] then []
    else
      var arr := Scanned(After(t[1..], '"'), Bracket);
      if arr == "" then [] else ReadArray(Before(t[1..], '"'), arr[1..], depth)
  }

  /** The rows of an array's rest under a key, and of the object behind it. */
  function ReadArray(key: string, s: string, depth: nat): seq<Row>
    decreases |s|, 2
  {
    var t := if s == "" || s[0] == ']' then s else Scanned(s, CidStart);
    if t == "" || t[0] == ']' || '"' !in t[1..] then ReadAfter(t, depth)
    else
      var cid := Before(t[1..], '"');
      (if cid != "" then [RowOf(key, cid)] else []) + ReadArray(key, Scanned(After(t[1..], '"'), NoSeparator), depth)
  }

  function ReadAfter(t: string, depth: nat): seq<Row>
    decreases |t|, 1
  {
    ReadObject(Scanned(if t != "" && t[0] == ']' then t[1..] else t, NoSeparator), depth)
  }

  /** Where the pattern first stands, |s| if nowhere. */
  function FindText(s: string, pattern: string): (i: nat)
    ensures i <= |s|
  {
    if pattern <= s then 0 else if s == "" then 0 else 1 + FindText(s[1..], pattern)
  }

  lemma {:induction false} FindTextIs(s: string, pattern: string)
    ensures var i := FindText(s, pattern);
            (i < |s| ==> pattern <= s[i..]) && forall k :: 0 <= k < i ==> !(pattern <= s[k..])
  {
    if !(pattern <= s) && s != "" {
      FindTextIs(s[1..], pattern);
      var i := FindText(s, pattern);
      assert s[i..] == s[1..][i - 1..];
      forall k | 0 <= k < i
        ensures !(pattern <= s[k..])
      {
        assert k > 0 ==> s[k..] == s[1..][k - 1..];
        assert k == 0 ==> s[k..] == s;
      }
    } else {
      assert s[0..] == s;
    }
  }

  function ReadPage(body: string): seq<Row> {
    var at := FindText(body, "\"changes\"");
    var obj := body[at..];
    if '{' !in obj then [] else ReadObject(After(obj, '{'), 1)
  }

  // The reader itself, a cursor moving over the text.

  function Rest(body: string, pos: nat): string
    requires pos <= |body|
  {
    body[pos..]
  }

  lemma RestAt(body: string, pos: nat)
    requires pos <= |body|
    ensures Rest(body, pos) == "" <==> pos == |body|
    ensures pos < |body| ==> Rest(body, pos)[0] == body[pos] && Rest(body, pos)[1..] == Rest(body, pos + 1)
  {
  }

  method Scan(body: string, from: nat, stop: char -> bool) returns (pos: nat)
    requires from <= |body|
    ensures from <= pos <= |body| && Rest(body, pos) == Scanned(Rest(body, from), stop)
    ensures pos < |body| ==> stop(body[pos])
  {
    hide Rest;
    pos := from;
    RestAt(body, pos);
    while pos < |body| && !stop(body[pos])
      invariant from <= pos <= |body| && Scanned(Rest(body, pos), stop) == Scanned(Rest(body, from), stop)
    {
      RestAt(body, pos);
      pos := pos + 1;
    }
    RestAt(body, pos);
  }

  /** find of a character from a position on; |body| when there is none. */
  method FindFrom(body: string, from: nat, c: char) returns (pos: nat)
    requires from <= |body|
    ensures from <= pos <= |body| && (pos == |body| <==> c !in Rest(body, from))
    ensures pos < |body| ==>
              body[from..pos] == Before(Rest(body, from), c) && Rest(body, pos + 1) == After(Rest(body, from), c)
  {
    pos := from;
    while pos < |body| && body[pos] != c
      invariant from <= pos <= |body| && c !in body[from..pos]
    {
      assert body[from..pos + 1] == body[from..pos] + [body[pos]];
      pos := pos + 1;
    }
    if pos < |body| {
      assert body[from..] == body[from..pos] + [c] + body[pos + 1..];
      Cut(body[from..pos], body[pos + 1..], c);
    } else {
      assert body[from..] == body[from..pos];
    }
  }

  method Locate(body: string, pattern: string) returns (at: nat)
    ensures at == FindText(body, pattern)
  {
    at := 0;
    while at < |body| && !(pattern <= body[at..])
      invariant at <= |body| && at + FindText(body[at..], pattern) == FindText(body, pattern)
    {
      assert body[at..][1..] == body[at + 1..];
      at := at + 1;
    }
  }

  /** The next value of an array, or its end. */
  method ReadCid(body: string, from: nat, key: string, before: seq<Row>, ghost depth: nat)
    returns (rows: seq<Row>, pos: nat, ended: bool)
    requires from < |body| && body[from] != ']'
    ensures from <= pos <= |body| && (!ended ==> pos > from)
    ensures ended ==> rows == before && ReadArray(key, Rest(body, from), depth) == ReadAfter(Rest(body, pos), depth)
    ensures !ended ==> rows + ReadArray(key, Rest(body, pos), depth) == before + ReadArray(key, Rest(body, from), depth)
  {
    hide ReadObject, ReadAfter, ReadArray, Scanned, Before, After, Rest;
    RestAt(body, from);
    pos := Scan(body, from, CidStart);
    RestAt(body, pos);
    rows, ended := before, true;
    if pos >= |body| || body[pos] == ']' {
      ArrayEnds(key, Rest(body, from), Rest(body, pos), depth);
      return;
    }
    var cidEnd := FindFrom(body, pos + 1, '"');
    if cidEnd == |body| {
      ArrayEnds(key, Rest(body, from), Rest(body, pos), depth);
      return;
    }
    ArrayGoes(key, Rest(body, from), Rest(body, pos), depth);
    var cid := body[pos + 1..cidEnd];
    ended := false;
    if cid != "" {
      var r := SplitKey(key, cid);
      rows := rows + [r];
    }
    pos := Scan(body, cidEnd + 1, NoSeparator);
    Appended(before, if cid != "" then [RowOf(key, cid)] else [], ReadArray(key, Rest(body, pos), depth));
    assert before + [] == before;
  }

  method SplitKey(key: string, cid: string) returns (r: Row)
    ensures r == RowOf(key, cid)
  {
    var dash := FindFrom(key, 0, '-');
    assert Rest(key, 0) == key;
    r := if dash == |key| then Row(key, "", cid) else Row(key[..dash], key[dash + 1..], cid);
    assert key[0..dash] == key[..dash];
  }

  /** The values of one array. */
  method ReadCids(body: string, from: nat, key: string, before: seq<Row>, ghost depth: nat)
    returns (rows: seq<Row>, pos: nat)
    requires from <= |body|
    ensures from <= pos <= |body|
    ensures rows + ReadAfter(Rest(body, pos), depth) == before + ReadArray(key, Rest(body, from), depth)
  {
    hide ReadObject, ReadAfter, ReadArray, Scanned, Rest;
    pos, rows := from, before;
    var ended := false;
    while !ended && pos < |body| && body[pos] != ']'
      invariant from <= pos <= |body|
      invariant !ended ==>
                  rows + ReadArray(key, Rest(body, pos), depth) == before + ReadArray(key, Rest(body, from), depth)
      invariant ended ==> rows + ReadAfter(Rest(body, pos), depth) == before + ReadArray(key, Rest(body, from), depth)
      decreases !ended, |body| - pos
    {
      rows, pos, ended := ReadCid(body, pos, key, rows, depth);
    }
    if !ended {
      RestAt(body, pos);
      ArrayEnds(key, Rest(body, pos), Rest(body, pos), depth);
    }
  }

  lemma Appended(a: seq<Row>, b: seq<Row>, c: seq<Row>)
    ensures a + (b + c) == (a + b) + c
  {
  }

  lemma ArrayEnds(key: string, s: string, t: string, depth: nat)
    requires t == if s == "" || s[0] == ']' then s else Scanned(s, CidStart)
    requires t == "" || t[0] == ']' || '"' !in t[1..]
    ensures ReadArray(key, s, depth) == ReadAfter(t, depth)
  {
  }

  lemma ArrayGoes(key: string, s: string, t: string, depth: nat)
    requires s != "" && s[0] != ']' && t == Scanned(s, CidStart)
    requires t != "" && t[0] != ']' && '"' in t[1..]
    ensures var cid := Before(t[1..], '"');
            ReadArray(key, s, depth)
            == (if cid != "" then [RowOf(key, cid)] else [])
               + ReadArray(key, Scanned(After(t[1..], '"'), NoSeparator), depth)
  {
  }

  /** One key and its array, or a brace. stuck says the reader gives up here. */
  method ReadKey(body: string, from: nat, deep: nat, before: seq<Row>)
    returns (rows: seq<Row>, pos: nat, depth: nat, stuck: bool)
    requires from < |body| && deep > 0
    ensures from <= pos <= |body| && (!stuck ==> pos > from)
    ensures stuck ==> rows == before && ReadObject(Rest(body, from), deep) == []
    ensures !stuck ==> rows + ReadObject(Rest(body, pos), depth) == before + ReadObject(Rest(body, from), deep)
  {
    hide ReadObject, ReadArray, ReadAfter, Scanned, Before, After, Rest;
    rows, depth, stuck := before, deep, true;
    pos := Scan(body, from, KeyStart);
    ObjectStep(Rest(body, from), Rest(body, pos), deep);
    RestAt(body, pos);
    if pos >= |body| {
      return;
    }
    if body[pos] == '}' {
      depth, pos, stuck := depth - 1, pos + 1, false;
      return;
    }
    if body[pos] == '{' {
      depth, pos, stuck := depth + 1, pos + 1, false;
      return;
    }
    var keyEnd := FindFrom(body, pos + 1, '"');
    if keyEnd == |body| {
      return;
    }
    var fullKey := body[pos + 1..keyEnd];
    var arr := Scan(body, keyEnd + 1, Bracket);
    RestAt(body, arr);
    if arr >= |body| {
      return;
    }
    rows, pos := ReadCids(body, arr + 1, fullKey, rows, depth);
    stuck := false;
    AfterStep(body, pos, depth);
    if pos < |body| && body[pos] == ']' {
      pos := pos + 1;
    }
    pos := Scan(body, pos, NoSeparator);
  }

  lemma {:induction false} AfterStep(body: string, pos: nat, depth: nat)
    requires pos <= |body|
    ensures var next := if pos < |body| && body[pos] == ']' then pos + 1 else pos;
            ReadAfter(Rest(body, pos), depth) == ReadObject(Scanned(Rest(body, next), NoSeparator), depth)
  {
    RestAt(body, pos);
    hide ReadObject, Scanned, Rest;
  }

  // pool/main.cpp:161-226
  /** The loop over the keys of the "changes" object. */
  method ReadChanges(body: string) returns (rows: seq<Row>)
    ensures rows == ReadPage(body)
  {
    hide ReadObject, Scanned, Before, After, FindText;
    rows := [];
    var changesPos := Locate(body, "\"changes\"");
    var objStart := FindFrom(body, changesPos, '{');
    if objStart == |body| {
      return;
    }
    var pos, depth, stuck := objStart + 1, 1, false;
    assert ReadPage(body) == ReadObject(Rest(body, pos), depth);
    hide Rest, ReadPage;
    while !stuck && pos < |body| && depth > 0
      invariant pos <= |body|
      invariant if stuck then rows == ReadPage(body) else rows + ReadObject(Rest(body, pos), depth) == ReadPage(body)
      decreases !stuck, |body| - pos
    {
      rows, pos, depth, stuck := ReadKey(body, pos, depth, rows);
    }
    if !stuck {
      RestAt(body, pos);
      ObjectStep(Rest(body, pos), Scanned(Rest(body, pos), KeyStart), depth);
      ScannedNone(KeyStart);
    }
  }

  lemma ScannedNone(stop: char -> bool)
    ensures Scanned("", stop) == ""
  {
  }

  lemma ObjectStep(s: string, t: string, depth: nat)
    requires t == Scanned(s, KeyStart)
    ensures ReadObject(s, depth)
         == if depth == 0 || t == "" then []
            else if t[0] == '}' then ReadObject(t[1..], depth - 1)
            else if t[0] == '{' then ReadObject(t[1..], depth + 1)
            else if '"' !in t[1..] then []
            else
              var arr := Scanned(After(t[1..], '"'), Bracket);
              if arr == "" then [] else ReadArray(Before(t[1..], '"'), arr[1..], depth)
  {
  }

  /** Reading does not mind what stands between the parts: anything but a quotation mark or a
      brace before a key, anything but a quotation mark or the end of the array before a value,
      commas and the six characters of white space behind both. Braces go down and up a level. */
  lemma {:induction false} BetweenParts(c: char, s: string, key: string, depth: nat)
    ensures c !in "\"{}" ==> ReadObject([c] + s, depth) == ReadObject(s, depth)
    ensures c !in "\"]" ==> ReadArray(key, [c] + s, depth) == ReadArray(key, s, depth)
    ensures Scanned([c] + s, NoSeparator)
            == if c == ',' || c in " \t\n\r" || c as int in {11, 12} then Scanned(s, NoSeparator) else [c] + s
    ensures depth > 0 ==> ReadObject("{" + s, depth) == ReadObject(s, depth + 1)
    ensures depth > 0 ==> ReadObject("}" + s, depth) == ReadObject(s, depth - 1)
  {
    ScanStep(c, s, KeyStart);
    ScanStep(c, s, CidStart);
    ScanStep(c, s, NoSeparator);
    hide ReadObject, ReadArray, Scanned;
    ObjectStep([c] + s, Scanned([c] + s, KeyStart), depth);
    ObjectStep(s, Scanned(s, KeyStart), depth);
    if c !in "\"]" {
      JunkInArray(c, s, key, depth);
    }
    BraceStep('{', s, depth);
    BraceStep('}', s, depth);
  }

  lemma ScanStep(c: char, s: string, stop: char -> bool)
    ensures Scanned([c] + s, stop) == if stop(c) then [c] + s else Scanned(s, stop)
  {
    assert ([c] + s)[1..] == s;
  }

  lemma {:induction false} BraceStep(c: char, s: string, depth: nat)
    requires c == '{' || c == '}'
    ensures depth > 0 ==> ReadObject([c] + s, depth) == ReadObject(s, if c == '{' then depth + 1 else depth - 1)
  {
    ScanStep(c, s, KeyStart);
    assert ([c] + s)[1..] == s;
    hide ReadObject, Scanned;
    ObjectStep([c] + s, [c] + s, depth);
  }

  lemma {:induction false} JunkInArray(c: char, s: string, key: string, depth: nat)
    requires c !in "\"]"
    ensures ReadArray(key, [c] + s, depth) == ReadArray(key, s, depth)
  {
    ScanStep(c, s, CidStart);
    var t := Scanned(s, CidStart);
    assert s != "" && s[0] == ']' ==> t == s;
    assert s == "" ==> t == s;
    hide ReadArray, ReadAfter, Scanned, Before, After;
    if t == "" || t[0] == ']' || '"' !in t[1..] {
      ArrayEnds(key, [c] + s, t, depth);
      ArrayEnds(key, s, t, depth);
    } else {
      ArrayGoes(key, [c] + s, t, depth);
      ArrayGoes(key, s, t, depth);
    }
  }

  // What comes back from a printed page.

  /** The text behind the value of one row. */
  function Following(prev: Row, rest: seq<Row>, end: string): string
    decreases |rest|
  {
    if rest == [] then "]" + end
    else Glue(Key(prev), Key(rest[0])) + Value(rest[0]) + Following(rest[0], rest[1..], end)
  }

  lemma Assoc(a: string, b: string, c: string)
    ensures (a + b) + c == a + (b + c)
  {
  }

  lemma {:induction false} PrintedSplit(rows: seq<Row>, i: nat, end: string)
    requires 1 <= i <= |rows|
    ensures Printed(rows) + ("]" + end) == Printed(rows[..i]) + Following(rows[i - 1], rows[i..], end)
    decreases |rows| - i
  {
    hide Glue, Value, Following, Printed, Key, JsonEscape;
    if i == |rows| {
      assert rows[..i] == rows && rows[i..] == [];
      FollowingNone(rows[i - 1], end);
    } else {
      FollowingStep(rows, i, end);
      PrintedSplit(rows, i + 1, end);
      assert rows[..i + 1] == rows[..i] + [rows[i]];
      PrintedMore(rows[..i], rows[i]);
      Chained(Printed(rows[..i]), Glue(Key(rows[i - 1]), Key(rows[i])), Value(rows[i]),
              Following(rows[i], rows[i + 1..], end));
    }
  }

  lemma FollowingNone(prev: Row, end: string)
    ensures Following(prev, [], end) == "]" + end
  {
  }

  lemma Chained(p: string, g: string, v: string, f: string)
    ensures (p + g + v) + f == p + (g + v + f)
  {
  }

  lemma {:induction false} FollowingStep(rows: seq<Row>, i: nat, end: string)
    requires 1 <= i < |rows|
    ensures Following(rows[i - 1], rows[i..], end)
         == Glue(Key(rows[i - 1]), Key(rows[i])) + Value(rows[i]) + Following(rows[i], rows[i + 1..], end)
  {
    hide Glue, Value, Key;
    assert rows[i..][0] == rows[i] && rows[i..][1..] == rows[i + 1..];
  }

  /** What the reader makes of a row's text: the key split at its first dash, and nothing
      of a row without a CID. */
  function Seen(r: Row): seq<Row> {
    if r.cid != "" then [RowOf(Key(r), r.cid)] else []
  }

  function ReadBack(rows: seq<Row>): seq<Row> {
    if rows == [] then [] else Seen(rows[0]) + ReadBack(rows[1..])
  }

  predicate PlainRow(r: Row) {
    Plain(r.assetId) && Plain(r.txHash) && Plain(r.cid)
  }

  ghost predicate PlainRows(rows: seq<Row>) {
    forall i :: 0 <= i < |rows| ==> PlainRow(rows[i])
  }

  lemma {:induction false} PlainKey(r: Row)
    requires PlainRow(r)
    ensures Plain(Key(r)) && '"' !in Key(r) && JsonEscape(Key(r)) == Key(r)
    ensures Value(r) == "\"" + r.cid + "\"" && '"' !in r.cid
  {
    EscapePlain(Key(r));
    EscapePlain(r.cid);
  }

  lemma {:induction false} ReadValue(key: string, cid: string, tail: string)
    requires '"' !in cid
    ensures ReadArray(key, "\"" + cid + "\"" + tail, 1)
         == (if cid != "" then [RowOf(key, cid)] else []) + ReadArray(key, Scanned(tail, NoSeparator), 1)
  {
    var s := "\"" + cid + "\"" + tail;
    assert s[0] == '"';
    assert s[1..] == cid + ['"'] + tail;
    Cut(cid, tail, '"');
    assert Scanned(s, CidStart) == s;
    hide ReadArray, Before, After, Scanned;
    ArrayGoes(key, s, s, 1);
  }

  lemma {:induction false} ReadOpening(key: string, tail: string)
    requires '"' !in key
    ensures ReadObject("\"" + key + "\":[" + tail, 1) == ReadArray(key, tail, 1)
  {
    var s := "\"" + key + "\":[" + tail;
    assert s[0] == '"';
    assert s[1..] == key + ['"'] + (":[" + tail);
    Cut(key, ":[" + tail, '"');
    assert Scanned(s, KeyStart) == s;
    BracketAt(tail);
    hide ReadObject, ReadArray, Before, After, Scanned;
    ObjectStep(s, s, 1);
  }

  lemma {:induction false} BracketAt(tail: string)
    ensures Scanned(":[" + tail, Bracket) == "[" + tail && ("[" + tail)[1..] == tail
  {
    assert (":[" + tail)[1..] == "[" + tail;
  }

  lemma {:induction false} SkipComma(s: string)
    requires s != "" && !Separator(s[0])
    ensures Scanned("," + s, NoSeparator) == s && Scanned(s, NoSeparator) == s
  {
    assert ("," + s)[1..] == s;
  }

  lemma {:induction false} CloseArray(key: string, s: string)
    ensures ReadArray(key, Scanned("]" + s, NoSeparator), 1) == ReadObject(Scanned(s, NoSeparator), 1)
  {
    assert Scanned("]" + s, NoSeparator) == "]" + s;
    assert ("]" + s)[1..] == s;
    hide ReadObject, Scanned;
    ArrayEnds(key, "]" + s, "]" + s, 1);
  }

  lemma {:induction false} ReadFollowing(prev: Row, rest: seq<Row>, end: string)
    requires PlainRows(rest) && PlainRow(prev) && ReadObject(Scanned(end, NoSeparator), 1) == []
    ensures ReadArray(Key(prev), Scanned(Following(prev, rest, end), NoSeparator), 1) == ReadBack(rest)
    decreases |rest|
  {
    hide ReadArray, ReadObject, ReadAfter, Scanned, JsonEscape, Plain;
    if rest == [] {
      CloseArray(Key(prev), end);
    } else {
      var r := rest[0];
      var more := Following(r, rest[1..], end);
      PlainKey(r);
      hide PlainRow;
      ReadFollowing(r, rest[1..], end);
      NextRow(prev, r, more);
      hide Following, Glue, Value, Key;
      ReadValue(Key(r), r.cid, more);
    }
  }

  /** From the end of one value into the next, through a comma or a new key. */
  lemma {:induction false} NextRow(prev: Row, r: Row, more: string)
    requires '"' !in Key(r) && JsonEscape(Key(r)) == Key(r) && Value(r) == "\"" + r.cid + "\""
    ensures ReadArray(Key(prev), Scanned(Glue(Key(prev), Key(r)) + Value(r) + more, NoSeparator), 1)
         == ReadArray(Key(r), "\"" + r.cid + "\"" + more, 1)
  {
    hide ReadArray, ReadObject, ReadAfter, Scanned, JsonEscape;
    var value := "\"" + r.cid + "\"" + more;
    if Key(prev) == Key(r) {
      assert Glue(Key(prev), Key(r)) + Value(r) + more == "," + value;
      SkipComma(value);
    } else {
      var open := "\"" + Key(r) + "\":[" + value;
      GlueText(prev, r, more);
      CloseArray(Key(prev), "," + open);
      SkipComma(open);
      ReadOpening(Key(r), value);
    }
  }

  lemma {:induction false} GlueText(prev: Row, r: Row, more: string)
    requires Key(prev) != Key(r) && JsonEscape(Key(r)) == Key(r) && Value(r) == "\"" + r.cid + "\""
    ensures Glue(Key(prev), Key(r)) + Value(r) + more
         == "]" + ("," + ("\"" + Key(r) + "\":[" + ("\"" + r.cid + "\"" + more)))
  {
    hide JsonEscape, Value;
    assert Key(prev) != "";
    assert Glue(Key(prev), Key(r)) == "]," + ("\"" + Key(r) + "\":[");
  }

  lemma {:induction false} EndRead(daily: string, done: bool)
    ensures ReadObject(Scanned(Tail(daily, done), NoSeparator), 1) == []
  {
    var end := Tail(daily, done);
    assert end[0] == '}';
    assert Scanned(end, NoSeparator) == end && Scanned(end, KeyStart) == end;
    hide Tail, Scanned;
    ObjectStep(end, end, 1);
    assert ReadObject(end[1..], 0) == [];
  }

  lemma {:induction false} PageText(rows: seq<Row>, r: Row, daily: string, done: bool)
    requires rows != [] && r == rows[0] && JsonEscape(Key(r)) == Key(r) && Value(r) == "\"" + r.cid + "\""
    ensures Page(rows, daily, done)
         == OPEN + ("\"" + Key(r) + "\":[" + ("\"" + r.cid + "\"" + Following(r, rows[1..], Tail(daily, done))))
  {
    hide Printed, Following, JsonEscape, Value, Tail, Key, Page;
    var end := Tail(daily, done);
    PageIs(rows, daily, done);
    PrintedSplit(rows, 1, end);
    FirstPrinted(rows);
    Regrouped(OPEN, Printed(rows), end, "\"" + Key(r) + "\":[", Value(r), Following(r, rows[1..], end));
  }

  lemma PageIs(rows: seq<Row>, daily: string, done: bool)
    requires rows != []
    ensures Page(rows, daily, done) == OPEN + Printed(rows) + "]" + Tail(daily, done)
  {
  }

  lemma {:induction false} FirstPrinted(rows: seq<Row>)
    requires rows != [] && JsonEscape(Key(rows[0])) == Key(rows[0])
    ensures Printed(rows[..1]) == "\"" + Key(rows[0]) + "\":[" + Value(rows[0])
  {
    assert Key(rows[0]) != "";
    hide Printed, JsonEscape, Value, Key;
    PrintedOne(rows[0]);
    assert rows[..1] == [rows[0]];
  }

  lemma Regrouped(open: string, printed: string, end: string, key: string, value: string, more: string)
    requires printed + ("]" + end) == (key + value) + more
    ensures open + printed + "]" + end == open + (key + (value + more))
  {
    Assoc(open + printed, "]", end);
    Assoc(open, printed, "]" + end);
    Assoc(key, value, more);
  }

  lemma {:induction false} PrintedOne(r: Row)
    requires JsonEscape(Key(r)) == Key(r) && Key(r) != ""
    ensures Printed([r]) == "\"" + Key(r) + "\":[" + Value(r)
  {
    hide JsonEscape, Value, Printed, Opening, Key, Glue;
    PrintedNone();
    PrintedMore([], r);
    assert [] + [r] == [r];
    OpeningText(Key(r));
    EmptyFront(Glue("", Key(r)));
    assert LastKey([]) == "";
  }

  lemma {:induction false} OpeningText(key: string)
    requires JsonEscape(key) == key && key != ""
    ensures Glue("", key) == "\"" + key + "\":["
  {
    hide JsonEscape;
    EmptyFront(Opening(key));
  }

  lemma EmptyFront(x: string)
    ensures "" + x == x
  {
  }

  /** The search for the object lands right behind its brace. */
  lemma {:induction false} PageObject(x: string)
    ensures ReadPage(OPEN + x) == ReadObject(x, 1)
  {
    var body := OPEN + x;
    assert body[1..] == "\"changes\":" + ['{'] + x;
    assert "\"changes\"" <= body[1..];
    assert body[0] == '{';
    assert FindText(body, "\"changes\"") == 1;
    Cut("\"changes\":", x, '{');
    hide ReadObject, FindText, After;
  }

  /** Reading a printed page gives its rows in their order, each as its text reads. */
  lemma {:induction false} PageReadsBackAs(rows: seq<Row>, daily: string, done: bool)
    requires rows != [] && PlainRows(rows)
    ensures ReadPage(Page(rows, daily, done)) == ReadBack(rows)
  {
    hide ReadArray, ReadObject, ReadAfter, Scanned, JsonEscape, Plain, Following, FindText, Before, After;
    var end := Tail(daily, done);
    var r := rows[0];
    EndRead(daily, done);
    PlainKey(r);
    assert PlainRow(r);
    hide PlainRow;
    var more := Following(r, rows[1..], end);
    PageText(rows, r, daily, done);
    ReadOpening(Key(r), "\"" + r.cid + "\"" + more);
    ReadValue(Key(r), r.cid, more);
    ReadFollowing(r, rows[1..], end);
    PageObject("\"" + Key(r) + "\":[" + ("\"" + r.cid + "\"" + more));
  }

  lemma {:induction false} Kept(r: Row)
    requires r.cid != ""
    ensures Seen(r) == [r] <==> '-' !in r.assetId
  {
    hide Before, After;
    assert Key(r) == r.assetId + ['-'] + r.txHash;
    if '-' !in r.assetId {
      Cut(r.assetId, r.txHash, '-');
    } else {
      var i := Find(r.assetId, '-');
      assert '-' in Key(r);
      ShorterSplit(r.assetId, r.txHash);
    }
  }

  lemma {:induction false} ShorterSplit(a: string, b: string)
    requires '-' in a
    ensures Before(a + ['-'] + b, '-') != a
  {
    assert '-' !in Before(a + ['-'] + b, '-');
  }

  /** Exactly the pages whose asset ids hold no dash and whose rows all have a CID come
      back as they were. */
  lemma {:induction false} ReadBackExact(rows: seq<Row>)
    ensures ReadBack(rows) == rows <==> forall i :: 0 <= i < |rows| ==> rows[i].cid != "" && '-' !in rows[i].assetId
    ensures |ReadBack(rows)| <= |rows|
  {
    if rows != [] {
      var r := rows[0];
      ReadBackExact(rows[1..]);
      if r.cid != "" {
        Kept(r);
      }
      assert rows == [r] + rows[1..];
      assert ReadBack(rows) == Seen(r) + ReadBack(rows[1..]);
    }
  }

  lemma {:induction false} PageRoundTrip(rows: seq<Row>, daily: string, done: bool)
    requires rows != [] && PlainRows(rows)
    ensures ReadPage(Page(rows, daily, done)) == rows
       <==> forall i :: 0 <= i < |rows| ==> rows[i].cid != "" && '-' !in rows[i].assetId
  {
    hide ReadPage, Page, ReadBack;
    PageReadsBackAs(rows, daily, done);
    ReadBackExact(rows);
  }
}
