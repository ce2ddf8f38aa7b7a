/**
 Fitting text to the panel. Whether a piece of text fits is a property of the current font and the width
 asked for; nothing is assumed about it.
 */
module Wrap {
  import opened Text

  /** The text up to the first space. */
  function FirstWord(s: string): string {
    if s == "" || s[0] == ' ' then "" else [s[0]] + FirstWord(s[1..])
  }

  predicate Spaces(s: string) {
    forall k :: 0 <= k < |s| ==> s[k] == ' '
  }

  /** A row fits, or is a single rune that cannot be broken further; and it does not begin with a space. */
  predicate Narrow(fits: string -> bool, row: string) {
    (fits(row) || |row| <= 1) && (row != "" ==> row[0] != ' ')
  }

  /** The row that ends before `rest` could not have taken more: not the next word, or not the next rune of its own. */
  predicate Full(fits: string -> bool, row: string, rest: string) {
    rest != "" && !fits(if rest[0] == ' ' then row + " " + FirstWord(rest[1..]) else row + [rest[0]])
  }

  /** Where the row before number i ends. */
  function EndBefore(rows: seq<string>, starts: seq<nat>, i: nat): nat
    requires |rows| == |starts| && i <= |rows|
  {
    if i == 0 then 0 else starts[i - 1] + |rows[i - 1]|
  }

  /** Row i is the text found at starts[i], and only spaces lie between it and the row before. */
  ghost predicate RowAt(fits: string -> bool, s: string, rows: seq<string>, starts: seq<nat>, i: nat)
    requires |rows| == |starts| && i < |rows|
  {
    var start, end := starts[i], starts[i] + |rows[i]|;
    && EndBefore(rows, starts, i) <= start && end <= |s|
    && Spaces(s[EndBefore(rows, starts, i)..start])
    && s[start..end] == rows[i] && Narrow(fits, rows[i])
  }

  /** Finished rows: each in its place, not empty, and as full as it can be. */
  ghost predicate Laid(fits: string -> bool, s: string, rows: seq<string>, starts: seq<nat>) {
    && |rows| == |starts|
    && forall i :: 0 <= i < |rows| ==>
         RowAt(fits, s, rows, starts, i) && rows[i] != "" && Full(fits, rows[i], s[starts[i] + |rows[i]|..])
  }

  /** The whole text is laid out: every row but the last is finished, and the last ends where the text does. */
  ghost predicate Wrapped(fits: string -> bool, s: string, rows: seq<string>, starts: seq<nat>) {
    && |rows| == |starts| > 0
    && var n := |rows| - 1;
    && Laid(fits, s, rows[..n], starts[..n])
    && RowAt(fits, s, rows, starts, n) && starts[n] + |rows[n]| == |s|
  }

  /** The layout under construction: finished rows, then the current row, which ends where the text read so far does. */
  ghost predicate Under(fits: string -> bool, s: string, rows: seq<string>, starts: seq<nat>,
                        cur: string, start: nat, end: nat) {
    && |rows| == |starts| && Laid(fits, s, rows, starts)
    && EndBefore(rows, starts, |rows|) <= start <= end <= |s|
    && Spaces(s[EndBefore(rows, starts, |rows|)..start])
    && s[start..end] == cur && Narrow(fits, cur)
  }

  /** The first k words and the spaces between them make up the text before `end`. */
  ghost predicate Consumed(s: string, words: seq<string>, k: nat, end: nat) {
    && k <= |words|
    && if k == |words| then end == |s|
       else if k == 0 then end == 0 && s == Join(words, ' ')
       else end < |s| && s[end] == ' ' && s[end + 1..] == Join(words[k..], ' ')
  }

  /** Where word k begins. */
  function WordStart(k: nat, end: nat): nat {
    if k == 0 then 0 else end + 1
  }

  lemma {:induction false} FirstWordOf(word: string, rest: string)
    requires ' ' !in word && (rest == "" || rest[0] == ' ')
    ensures FirstWord(word + rest) == word
  {
    if word == "" {
      assert word + rest == rest;
    } else {
      assert (word + rest)[1..] == word[1..] + rest;
      FirstWordOf(word[1..], rest);
    }
  }

  lemma NextWord(s: string, words: seq<string>, k: nat, end: nat)
    requires Consumed(s, words, k, end) && k < |words| && ' ' !in words[k]
    ensures var at, stop := WordStart(k, end), WordStart(k, end) + |words[k]|;
            stop <= |s| && s[at..stop] == words[k] && Consumed(s, words, k + 1, stop)
    ensures k > 0 ==> end < |s| && s[end] == ' ' && FirstWord(s[end + 1..]) == words[k]
  {
    hide FirstWord, Join;
    var at := WordStart(k, end);
    var rest := words[k..];
    var word := words[k];
    assert s[at..] == Join(rest, ' ') by {
      assert words[0..] == words && s[0..] == s;
    }
    if k + 1 == |words| {
      JoinOne(word);
      assert rest == [word];
      assert s[at..] == word && word + "" == word;
      FirstWordOf(word, "");
    } else {
      var more := Join(words[k + 1..], ' ');
      assert rest == [word] + words[k + 1..];
      JoinMore(word, words[k + 1..]);
      assert s[at..] == word + ([' '] + more);
      FirstWordOf(word, [' '] + more);
      assert s[at..at + |word|] == s[at..][..|word|] == word;
      assert s[at + |word|..] == s[at..][|word|..] == [' '] + more;
      assert s[at + |word|] == ' ' && s[at + |word| + 1..] == s[at + |word|..][1..] == more;
    }
  }

  lemma JoinOne(word: string)
    ensures Join([word], ' ') == word
  {
  }

  lemma JoinMore(word: string, words: seq<string>)
    requires words != []
    ensures Join([word] + words, ' ') == word + ([' '] + Join(words, ' '))
  {
    assert ([word] + words)[1..] == words;
  }

  lemma LaidNothing(fits: string -> bool, s: string)
    ensures Under(fits, s, [], [], "", 0, 0)
  {
  }

  /** The current row takes the text that follows it. */
  lemma Take(fits: string -> bool, s: string, rows: seq<string>, starts: seq<nat>,
             cur: string, start: nat, end: nat, stop: nat)
    requires Under(fits, s, rows, starts, cur, start, end) && end <= stop <= |s|
    requires Narrow(fits, cur + s[end..stop])
    ensures Under(fits, s, rows, starts, cur + s[end..stop], start, stop)
  {
    hide Laid, Narrow, Spaces;
    assert s[start..stop] == s[start..end] + s[end..stop];
  }

  lemma CurrentRow(fits: string -> bool, s: string, rows: seq<string>, starts: seq<nat>,
                   cur: string, start: nat, end: nat)
    requires Under(fits, s, rows, starts, cur, start, end)
    ensures Narrow(fits, cur)
  {
  }

  lemma EmptyRow(fits: string -> bool, s: string, rows: seq<string>, starts: seq<nat>, start: nat, end: nat)
    requires Under(fits, s, rows, starts, "", start, end)
    ensures start == end
  {
    hide Laid, Narrow, Spaces;
    assert |s[start..end]| == end - start;
  }

  /** An empty current row moves past a space. */
  lemma Skip(fits: string -> bool, s: string, rows: seq<string>, starts: seq<nat>, end: nat, at: nat)
    requires Under(fits, s, rows, starts, "", end, end) && end <= at <= |s|
    requires at == end || (at == end + 1 && s[end] == ' ')
    ensures Under(fits, s, rows, starts, "", at, at)
  {
    hide Laid, Narrow, Spaces, EndBefore;
    MoreSpaces(s, EndBefore(rows, starts, |rows|), end, at);
    assert s[at..at] == "";
  }

  lemma MoreSpaces(s: string, e: nat, end: nat, at: nat)
    requires e <= end <= at <= |s| && Spaces(s[e..end])
    requires at == end || (at == end + 1 && s[end] == ' ')
    ensures Spaces(s[e..at])
  {
    var gap := s[e..end];
    forall k | 0 <= k < at - e
      ensures s[e..at][k] == ' '
    {
      assert k < |gap| ==> s[e..at][k] == gap[k];
    }
  }

  /** The word goes on the current row. */
  lemma Accept(fits: string -> bool, s: string, rows: seq<string>, starts: seq<nat>,
               cur: string, start: nat, end: nat, at: nat, word: string)
    requires Under(fits, s, rows, starts, cur, start, end) && end <= at && at + |word| <= |s|
    requires at == end || (at == end + 1 && s[end] == ' ')
    requires cur != "" ==> at == end + 1
    requires s[at..at + |word|] == word && ' ' !in word && fits(if cur != "" then cur + " " + word else word)
    ensures Under(fits, s, rows, starts, if cur != "" then cur + " " + word else word,
                  if cur != "" then start else at, at + |word|)
  {
    hide Under;
    if cur != "" {
      assert s[end..at + |word|] == " " + word;
      assert cur + (" " + word) == cur + " " + word;
      CurrentRow(fits, s, rows, starts, cur, start, end);
      Take(fits, s, rows, starts, cur, start, end, at + |word|);
    } else {
      EmptyRow(fits, s, rows, starts, start, end);
      Skip(fits, s, rows, starts, end, at);
      assert "" + word == word;
      Take(fits, s, rows, starts, "", at, at, at + |word|);
    }
  }

  /** A full row is finished. */
  lemma Commit(fits: string -> bool, s: string, rows: seq<string>, starts: seq<nat>,
               cur: string, start: nat, end: nat)
    requires Under(fits, s, rows, starts, cur, start, end) && cur != "" && Full(fits, cur, s[end..])
    ensures Under(fits, s, rows + [cur], starts + [start], "", end, end)
  {
    hide Full, Narrow, Spaces, RowAt;
    var more, begins := rows + [cur], starts + [start];
    CommitLaid(fits, s, rows, starts, cur, start, end);
    assert EndBefore(more, begins, |more|) == end;
    assert s[end..end] == "";
    OfNothing(fits);
  }

  lemma CommitLaid(fits: string -> bool, s: string, rows: seq<string>, starts: seq<nat>,
                   cur: string, start: nat, end: nat)
    requires Under(fits, s, rows, starts, cur, start, end) && cur != "" && Full(fits, cur, s[end..])
    ensures Laid(fits, s, rows + [cur], starts + [start]) && start + |cur| == end
  {
    hide Full, Narrow, Spaces, RowAt;
    var more, begins := rows + [cur], starts + [start];
    LastRow(fits, s, rows, starts, cur, start, end);
    assert begins[|rows|] == start && more[|rows|] == cur;
    forall i | 0 <= i < |more|
      ensures RowAt(fits, s, more, begins, i) && begins[i] + |more[i]| <= |s|
      ensures more[i] != "" && Full(fits, more[i], s[begins[i] + |more[i]|..])
    {
      if i < |rows| {
        RowEnds(fits, s, rows, starts, i);
        RowKept(fits, s, rows, starts, cur, start, i);
      }
    }
  }

  lemma LastRow(fits: string -> bool, s: string, rows: seq<string>, starts: seq<nat>,
                cur: string, start: nat, end: nat)
    requires Under(fits, s, rows, starts, cur, start, end)
    ensures RowAt(fits, s, rows + [cur], starts + [start], |rows|) && start + |cur| == end
  {
    hide Laid, Narrow, Spaces;
    EndKept(rows, starts, cur, start, |rows|);
  }

  lemma RowEnds(fits: string -> bool, s: string, rows: seq<string>, starts: seq<nat>, i: nat)
    requires |rows| == |starts| && i < |rows| && RowAt(fits, s, rows, starts, i)
    ensures starts[i] + |rows[i]| <= |s| && Narrow(fits, rows[i])
  {
  }

  lemma EndKept(rows: seq<string>, starts: seq<nat>, cur: string, start: nat, i: nat)
    requires |rows| == |starts| && i <= |rows|
    ensures EndBefore(rows + [cur], starts + [start], i) == EndBefore(rows, starts, i)
  {
  }

  lemma RowKept(fits: string -> bool, s: string, rows: seq<string>, starts: seq<nat>, cur: string, start: nat, i: nat)
    requires |rows| == |starts| && i < |rows|
    ensures RowAt(fits, s, rows + [cur], starts + [start], i) == RowAt(fits, s, rows, starts, i)
  {
    hide Narrow, Spaces;
    EndKept(rows, starts, cur, start, i);
  }

  lemma OfNothing(fits: string -> bool)
    ensures Narrow(fits, "") && Spaces("")
  {
  }

  lemma FullAtWord(fits: string -> bool, s: string, cur: string, end: nat, word: string)
    requires end < |s| && s[end] == ' ' && FirstWord(s[end + 1..]) == word && !fits(cur + " " + word)
    ensures Full(fits, cur, s[end..])
  {
    assert s[end..][1..] == s[end + 1..];
  }

  method WrapToWidth(fits: string -> bool, s: string) returns (rows: seq<string>)
    ensures exists starts :: Wrapped(fits, s, rows, starts)
    ensures rows != [] && forall i :: 0 <= i < |rows| ==> Narrow(fits, rows[i])
    ensures EraseAll(rows) == Erase(s)
  {
    hide Wrapped, Under, Consumed, Full, FirstWord, Split, Join, Narrow, Erase, EraseAll;
    var words := Split(s, ' ');
    SplitJoin(s, ' ');
    rows := [];
    var cur := "";
    ghost var starts: seq<nat>, start: nat, end: nat := [], 0, 0;
    LaidNothing(fits, s);
    Begin(s, words);
    for k := 0 to |words|
      invariant Under(fits, s, rows, starts, cur, start, end)
      invariant Consumed(s, words, k, end)
      invariant cur != "" ==> k > 0
      invariant k == 0 ==> end == 0
      invariant cur == "" ==> start == end
    {
      var word := words[k];
      ghost var at := WordStart(k, end);
      NextWord(s, words, k, end);
      var cand := if cur != "" then cur + " " + word else word;
      if fits(cand) {
        Accept(fits, s, rows, starts, cur, start, end, at, word);
        start := if cur != "" then start else at;
        end := at + |word|;
        cur := cand;
        continue;
      }
      if cur != "" {
        FullAtWord(fits, s, cur, end, word);
        Commit(fits, s, rows, starts, cur, start, end);
        rows, starts := rows + [cur], starts + [start];
        cur := "";
        start := end;
      }
      if fits(word) {
        Accept(fits, s, rows, starts, "", start, end, at, word);
        start, end := at, at + |word|;
        cur := word;
        continue;
      }
      Skip(fits, s, rows, starts, end, at);
      start, end := at, at;
      var chunk := "";
      for j := 0 to |word|
        invariant Under(fits, s, rows, starts, chunk, start, end)
        invariant end == at + j && (chunk == "" ==> start == end)
        invariant chunk != "" ==> j > 0
      {
        var t := chunk + [word[j]];
        RuneAt(s, word, at, j);
        if fits(t) || chunk == "" {
          TakeRune(fits, s, rows, starts, chunk, start, end);
          chunk := t;
        } else {
          FullAtRune(fits, s, chunk, end);
          Commit(fits, s, rows, starts, chunk, start, end);
          rows, starts := rows + [chunk], starts + [start];
          start := end;
          TakeRune(fits, s, rows, starts, "", start, end);
          chunk := [word[j]];
          assert "" + chunk == chunk;
        }
        end := end + 1;
      }
      cur := chunk;
    }
    Finish(fits, s, words, rows, starts, cur, start, end);
    rows, starts := rows + [cur], starts + [start];
    WrappedIsSound(fits, s, rows, starts);
  }

  lemma Begin(s: string, words: seq<string>)
    requires |words| >= 1 && s == Join(words, ' ')
    ensures Consumed(s, words, 0, 0)
  {
  }

  lemma RuneAt(s: string, word: string, at: nat, j: nat)
    requires at + |word| <= |s| && s[at..at + |word|] == word && j < |word| && ' ' !in word
    ensures s[at + j] == word[j] != ' '
  {
    assert s[at..at + |word|][j] == s[at + j];
    assert word[j] in word;
  }

  lemma TakeRune(fits: string -> bool, s: string, rows: seq<string>, starts: seq<nat>,
                 chunk: string, start: nat, end: nat)
    requires Under(fits, s, rows, starts, chunk, start, end) && end < |s|
    requires (fits(chunk + [s[end]]) || chunk == "") && s[end] != ' '
    ensures Under(fits, s, rows, starts, chunk + [s[end]], start, end + 1)
  {
    hide Under;
    CurrentRow(fits, s, rows, starts, chunk, start, end);
    assert s[end..end + 1] == [s[end]];
    Take(fits, s, rows, starts, chunk, start, end, end + 1);
  }

  lemma FullAtRune(fits: string -> bool, s: string, chunk: string, end: nat)
    requires end < |s| && s[end] != ' ' && !fits(chunk + [s[end]])
    ensures Full(fits, chunk, s[end..])
  {
  }

  lemma Finish(fits: string -> bool, s: string, words: seq<string>, rows: seq<string>, starts: seq<nat>,
               cur: string, start: nat, end: nat)
    requires Under(fits, s, rows, starts, cur, start, end) && Consumed(s, words, |words|, end)
    ensures Wrapped(fits, s, rows + [cur], starts + [start])
  {
    hide Laid, Narrow, Spaces, RowAt;
    var more, begins := rows + [cur], starts + [start];
    assert more[..|rows|] == rows && begins[..|rows|] == starts;
    LastRow(fits, s, rows, starts, cur, start, end);
  }

  // ---- Nothing but spaces is lost ---------------------------------------------------------

  /** The text without its spaces. */
  function Erase(s: string): string {
    if s == "" then "" else (if s[0] == ' ' then "" else [s[0]]) + Erase(s[1..])
  }

  /** The rows one after the other, without spaces. */
  function EraseAll(rows: seq<string>): string {
    if rows == [] then "" else EraseAll(rows[..|rows| - 1]) + Erase(rows[|rows| - 1])
  }

  lemma {:induction false} EraseConcat(a: string, b: string)
    ensures Erase(a + b) == Erase(a) + Erase(b)
  {
    if a == "" {
      assert a + b == b;
    } else {
      assert (a + b)[1..] == a[1..] + b;
      EraseConcat(a[1..], b);
    }
  }

  lemma {:induction false} EraseSpaces(s: string)
    requires Spaces(s)
    ensures Erase(s) == ""
  {
    if s != "" {
      EraseSpaces(s[1..]);
    }
  }

  /** Up to the end of row n, the text and the rows agree. */
  lemma {:induction false} RowsErase(fits: string -> bool, s: string, rows: seq<string>, starts: seq<nat>, n: nat)
    requires |rows| == |starts| && n <= |rows|
    requires forall i :: 0 <= i < n ==> RowAt(fits, s, rows, starts, i)
    ensures EndBefore(rows, starts, n) <= |s|
    ensures EraseAll(rows[..n]) == Erase(s[..EndBefore(rows, starts, n)])
  {
    hide Narrow, Spaces, Erase, RowAt;
    if n == 0 {
      assert s[..0] == "" && rows[..0] == [];
      EraseSpaces("");
    } else {
      RowsErase(fits, s, rows, starts, n - 1);
      var init, last := rows[..n - 1], rows[n - 1];
      assert rows[..n][..n - 1] == init;
      OneRowErases(fits, s, rows, starts, n - 1);
    }
  }

  lemma OneRowErases(fits: string -> bool, s: string, rows: seq<string>, starts: seq<nat>, n: nat)
    requires |rows| == |starts| && n < |rows| && RowAt(fits, s, rows, starts, n)
    ensures EndBefore(rows, starts, n) <= EndBefore(rows, starts, n + 1) <= |s|
    ensures Erase(s[..EndBefore(rows, starts, n + 1)]) == Erase(s[..EndBefore(rows, starts, n)]) + Erase(rows[n])
  {
    hide Narrow, Erase;
    var e, start, end := EndBefore(rows, starts, n), starts[n], starts[n] + |rows[n]|;
    GapErases(s, e, start, end);
  }

  lemma GapErases(s: string, e: nat, start: nat, end: nat)
    requires e <= start <= end <= |s| && Spaces(s[e..start])
    ensures Erase(s[..end]) == Erase(s[..e]) + Erase(s[start..end])
  {
    hide Spaces, Erase;
    assert s[..end] == s[..e] + (s[e..start] + s[start..end]);
    EraseConcat(s[..e], s[e..start] + s[start..end]);
    EraseConcat(s[e..start], s[start..end]);
    EraseSpaces(s[e..start]);
    assert "" + Erase(s[start..end]) == Erase(s[start..end]);
  }

  lemma WrappedRows(fits: string -> bool, s: string, rows: seq<string>, starts: seq<nat>)
    requires Wrapped(fits, s, rows, starts)
    ensures |rows| == |starts| > 0
    ensures forall i :: 0 <= i < |rows| ==> RowAt(fits, s, rows, starts, i)
  {
    hide Narrow, Spaces, Full, RowAt;
    var n := |rows| - 1;
    assert rows[..n] + [rows[n]] == rows && starts[..n] + [starts[n]] == starts;
    forall i | 0 <= i < n
      ensures RowAt(fits, s, rows, starts, i)
    {
      RowKept(fits, s, rows[..n], starts[..n], rows[n], starts[n], i);
    }
  }

  /** What wrapping is for: every row fits or is one rune, and the text is all there apart from spaces. */
  lemma WrappedIsSound(fits: string -> bool, s: string, rows: seq<string>, starts: seq<nat>)
    requires Wrapped(fits, s, rows, starts)
    ensures forall i :: 0 <= i < |rows| ==> Narrow(fits, rows[i])
    ensures EraseAll(rows) == Erase(s)
  {
    hide Narrow, Spaces, Full, Laid, Erase, EraseAll;
    WrappedRows(fits, s, rows, starts);
    RowsErase(fits, s, rows, starts, |rows|);
    assert s[..|s|] == s && rows[..|rows|] == rows;
    forall i | 0 <= i < |rows|
      ensures Narrow(fits, rows[i])
    {
      RowEnds(fits, s, rows, starts, i);
    }
  }

  // ---- The Logs page ----------------------------------------------------------------------

  const MAX_LOG_ROWS := 13

  /** A row of the Logs page: continuation rows are indented, those of the newest line are brighter. */
  datatype LogRow = LogRow(text: string, continued: bool, newest: bool)

  /** These rows are one log line, wrapped. */
  ghost predicate Block(fits: string -> bool, line: string, newest: bool, rows: seq<LogRow>) {
    && (exists texts, starts :: Wrapped(fits, line, texts, starts) && Labelled(texts, newest, rows))
  }

  predicate Labelled(texts: seq<string>, newest: bool, rows: seq<LogRow>) {
    && |texts| == |rows|
    && forall j :: 0 <= j < |rows| ==> rows[j] == LogRow(texts[j], j > 0, newest)
  }

  function Flatten(blocks: seq<seq<LogRow>>): seq<LogRow> {
    if blocks == [] then [] else Flatten(blocks[..|blocks| - 1]) + blocks[|blocks| - 1]
  }

  /** These are the rows of all the lines, oldest first. */
  ghost predicate Blocks(fits: string -> bool, lines: seq<string>, blocks: seq<seq<LogRow>>) {
    && |blocks| == |lines|
    && forall i :: 0 <= i < |lines| ==> Block(fits, lines[i], i == |lines| - 1, blocks[i])
  }

  /** All the rows are those above the page, if any, and then the page: thirteen rows once there are as many. */
  predicate LastRows(all: seq<LogRow>, above: seq<LogRow>, page: seq<LogRow>) {
    all == above + page && |page| == if |all| < 13 then |all| else 13
  }

  /** The rows of the lines follow one another. */
  lemma {:induction false} FlattenConcat(a: seq<seq<LogRow>>, b: seq<seq<LogRow>>)
    ensures Flatten(a + b) == Flatten(a) + Flatten(b)
    ensures forall block :: Flatten([block]) == block
  {
    forall block
      ensures Flatten([block]) == block
    {
      assert [block][..0] == [] && [] + block == block;
    }
    if b == [] {
      assert a + b == a && Flatten(a) + [] == Flatten(a);
    } else {
      var n := |b| - 1;
      assert (a + b)[..|a| + n] == a + b[..n];
      FlattenConcat(a, b[..n]);
    }
  }

  /** Every line wrapped, and of all the rows the last ones that the page has room for. */
  method LogRows(fits: string -> bool, lines: seq<string>) returns (rows: seq<LogRow>)
    ensures exists blocks, above :: Blocks(fits, lines, blocks) && LastRows(Flatten(blocks), above, rows)
  {
    hide Wrapped, Block;
    rows := [];
    ghost var blocks: seq<seq<LogRow>> := [];
    for i := 0 to |lines|
      invariant |blocks| == i && rows == Flatten(blocks)
      invariant forall k :: 0 <= k < i ==> Block(fits, lines[k], k == |lines| - 1, blocks[k])
    {
      var texts := WrapToWidth(fits, lines[i]);
      var labelled := Label(texts, i == |lines| - 1);
      BlockOf(fits, lines[i], i == |lines| - 1, texts, labelled);
      assert (blocks + [labelled])[..i] == blocks;
      blocks := blocks + [labelled];
      rows := rows + labelled;
    }
    assert Blocks(fits, lines, blocks);
    ghost var above: seq<LogRow> := [];
    if |rows| > MAX_LOG_ROWS {
      above := rows[..|rows| - MAX_LOG_ROWS];
      rows := rows[|rows| - MAX_LOG_ROWS..];
    }
    assert LastRows(Flatten(blocks), above, rows);
  }

  method Label(texts: seq<string>, newest: bool) returns (rows: seq<LogRow>)
    ensures Labelled(texts, newest, rows)
  {
    rows := [];
    for j := 0 to |texts|
      invariant Labelled(texts[..j], newest, rows)
    {
      rows := rows + [LogRow(texts[j], j > 0, newest)];
    }
  }

  lemma BlockOf(fits: string -> bool, line: string, newest: bool, texts: seq<string>, rows: seq<LogRow>)
    requires exists starts :: Wrapped(fits, line, texts, starts)
    requires Labelled(texts, newest, rows)
    ensures Block(fits, line, newest, rows)
  {
    hide Wrapped, Labelled;
  }

  // ---- Truncation -------------------------------------------------------------------------

  const ELLIPSIS := "\U{2026}"

  /** The text itself when it fits; else its longest proper prefix that fits with an ellipsis; else the ellipsis. */
  method TruncateToWidth(fits: string -> bool, s: string) returns (t: string)
    ensures fits(s) ==> t == s
    ensures !fits(s) ==> exists n :: Truncation(fits, s, n, t)
  {
    if fits(s) {
      return s;
    }
    var r := s;
    while |r| > 1
      invariant r <= s
      invariant forall m :: |r| <= m < |s| && m > 0 ==> !fits(s[..m] + ELLIPSIS)
    {
      r := r[..|r| - 1];
      assert r == s[..|r|];
      if fits(r + ELLIPSIS) {
        assert Truncation(fits, s, |r|, r + ELLIPSIS);
        return r + ELLIPSIS;
      }
    }
    assert "" + ELLIPSIS == ELLIPSIS && s[..0] == "";
    assert Truncation(fits, s, 0, ELLIPSIS);
    return ELLIPSIS;
  }

  ghost predicate Truncation(fits: string -> bool, s: string, n: nat, t: string) {
    && (n < |s| || n == 0) && t == s[..n] + ELLIPSIS && (n > 0 ==> fits(t))
    && forall m :: n < m < |s| ==> !fits(s[..m] + ELLIPSIS)
  }
}
