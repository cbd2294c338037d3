/** The text handling of `backend/src/processor/processor_manager.py` that surrounds the
    language-model calls: packing a document's paragraphs into a given number of chunks,
    reading the per-file token counts back from the token file, deciding which files an
    incremental run skips, and cleaning up the model's question-and-answer output.
    File contents are hashed outside the model: each file comes with its hash. */
module Processor {
  import opened Wrappers
  import opened Json
  import opened Strings

  // ----- _chunk_content_by_tokens -----

  /** The paragraph separator the chunker splits on and joins with. */
  const ParagraphBreak: string := "\n\n"

  /** No paragraph of `content` is empty, so joining paragraphs loses nothing. */
  predicate NoEmptyParagraph(content: string) {
    forall k :: 0 <= k < |SplitStr(content, ParagraphBreak)| ==> SplitStr(content, ParagraphBreak)[k] != ""
  }

  /** `sum(len(chunk) for chunk in chunks)`. */
  function TotalLength(chunks: seq<string>): nat {
    if chunks == [] then 0 else TotalLength(chunks[..|chunks| - 1]) + |chunks[|chunks| - 1]|
  }

  predicate AllNonEmpty(chunks: seq<string>) {
    forall k :: 0 <= k < |chunks| ==> chunks[k] != ""
  }

  /** One pass of the paragraph loop of `_chunk_content_by_tokens`: the paragraph joins the
      chunk being built while that stays within 1.2 times the target size (or the chunk is
      still empty); otherwise the chunk is finished, the paragraph starts the next one and
      the target is recomputed from the characters and chunks that remain. */
  method PackParagraph(chunks: seq<string>, current: string, currentChars: int, target: int,
                              para: string, numChunks: int, totalChars: int)
    returns (chunks': seq<string>, current': string, currentChars': int, target': int)
    ensures AllNonEmpty(chunks) ==> AllNonEmpty(chunks')
    ensures para != "" ==> current' != ""
    ensures current != "" ==>
      Join(chunks' + [current'], ParagraphBreak) == Join(chunks + [current], ParagraphBreak) + ParagraphBreak + para
    ensures chunks == [] && current == "" ==> chunks' == [] && current' == para
  {
    var paraChars := |para| + 2;
    chunks', current', currentChars', target' := chunks, current, currentChars, target;
    JoinExtendLast(chunks, current, para, ParagraphBreak);
    if 5 * (currentChars' + paraChars) <= 6 * target' || current' == "" {
      if current' != "" {
        current' := current' + ParagraphBreak;
      }
      current' := current' + para;
      currentChars' := currentChars' + paraChars;
    } else {
      if current' != "" {
        chunks' := chunks' + [current'];
      }
      current' := para;
      currentChars' := |para|;
      var remainingChunks := numChunks - |chunks'|;
      if remainingChunks > 1 {
        var remainingChars := totalChars - TotalLength(chunks') - currentChars';
        target' := remainingChars / (remainingChunks - 1);
      }
    }
  }

  /** The closing loop of `_chunk_content_by_tokens`: while there are too many chunks, the
      last one is appended to the one before it. */
  method MergeSurplus(chunks: seq<string>, numChunks: int) returns (merged: seq<string>)
    requires numChunks >= 1
    ensures |merged| <= numChunks && (|chunks| <= numChunks ==> merged == chunks)
    ensures AllNonEmpty(chunks) ==> AllNonEmpty(merged)
    ensures Join(merged, ParagraphBreak) == Join(chunks, ParagraphBreak)
  {
    merged := chunks;
    while |merged| > numChunks
      invariant AllNonEmpty(chunks) ==> AllNonEmpty(merged)
      invariant Join(merged, ParagraphBreak) == Join(chunks, ParagraphBreak)
      invariant |chunks| <= numChunks ==> merged == chunks
      decreases |merged|
    {
      JoinMergeLast(merged, ParagraphBreak);
      var last := merged[|merged| - 1];
      merged := merged[..|merged| - 2] + [merged[|merged| - 2] + ParagraphBreak + last];
    }
  }

  /** `_chunk_content_by_tokens(content, num_chunks)`. The size test `current_chars +
      para_chars <= target_chars * 1.2` is written over the integers as
      `5 * (current_chars + para_chars) <= 6 * target_chars`. */
  method ChunkContentByTokens(content: string, numChunks: int) returns (chunks: seq<string>)
    ensures numChunks <= 1 ==> chunks == [content]
    ensures numChunks > 1 ==> |chunks| <= numChunks && AllNonEmpty(chunks)
    ensures NoEmptyParagraph(content) ==> Join(chunks, ParagraphBreak) == content
  {
    if numChunks <= 1 {
      return [content];
    }
    var totalChars := |content|;
    var charsPerChunk := totalChars / numChunks;
    var paragraphs := SplitStr(content, ParagraphBreak);
    ghost var whole := NoEmptyParagraph(content);
    chunks := [];
    var current := "";
    var currentChars := 0;
    var target := charsPerChunk;
    var i := 0;
    while i < |paragraphs|
      invariant 0 <= i <= |paragraphs|
      invariant AllNonEmpty(chunks)
      invariant whole && i == 0 ==> chunks == [] && current == ""
      invariant whole && i > 0 ==> (current != ""
        && Join(chunks + [current], ParagraphBreak) == Join(paragraphs[..i], ParagraphBreak))
    {
      assert paragraphs[..i + 1] == paragraphs[..i] + [paragraphs[i]];
      JoinSnoc(paragraphs[..i], paragraphs[i], ParagraphBreak);
      chunks, current, currentChars, target := PackParagraph(chunks, current, currentChars, target, paragraphs[i], numChunks, totalChars);
      i := i + 1;
    }
    assert paragraphs[..i] == paragraphs;
    JoinSplit(content, ParagraphBreak);
    if current != "" {
      chunks := chunks + [current];
    }
    chunks := MergeSurplus(chunks, numChunks);
  }

  // ----- How many chunks a file is cut into -----

  /** Whether a file of `fileTokens` tokens is cut into chunks of `chunkSize` tokens. */
  predicate Splits(fileTokens: int, chunkSize: int) {
    fileTokens > 0 && fileTokens > chunkSize
  }

  /** Python's `a // b`: the quotient rounded towards minus infinity, so the remainder takes
      the divisor's sign (Dafny's `/` keeps it non-negative instead). */
  function FloorDiv(a: int, b: int): (q: int)
    requires b != 0
    ensures b > 0 ==> b * q <= a < b * q + b
    ensures b < 0 ==> b * q + b < a <= b * q
  {
    if b > 0 then a / b else (-a) / (-b)
  }

  /** `(file_tokens + chunk_size - 1) // chunk_size`. The chunk size comes from the
      configuration unchecked: 0 raises `ZeroDivisionError` (`None`); a positive size gives
      the fewest chunks of at most `chunkSize` tokens that hold the file, at least two
      whenever it splits; a negative size gives at most one chunk. */
  function ChunkCount(fileTokens: int, chunkSize: int): (n: Option<int>)
    ensures n.None? <==> chunkSize == 0
    ensures chunkSize > 0 && Splits(fileTokens, chunkSize) ==>
      n.Some? && n.value >= 2 && (n.value - 1) * chunkSize < fileTokens <= n.value * chunkSize
    ensures chunkSize < 0 && fileTokens > 0 ==> n.Some? && n.value <= 1
  {
    if chunkSize == 0 then None
    else
      if chunkSize < 0 && fileTokens > 0 then
        NegativeSizeOneChunk(fileTokens, chunkSize);
        Some(FloorDiv(fileTokens + chunkSize - 1, chunkSize))
      else Some(FloorDiv(fileTokens + chunkSize - 1, chunkSize))
  }

  /** With a negative chunk size the count is at most one, whatever the file's tokens. */
  lemma NegativeSizeOneChunk(fileTokens: int, chunkSize: int)
    requires chunkSize < 0 && fileTokens > 0
    ensures FloorDiv(fileTokens + chunkSize - 1, chunkSize) <= 1
  {
  }

  /** The chunks of one file in the question-and-answer run: a file that splits is packed
      into `ChunkCount` chunks, any other file is one chunk; a chunk size of 0 makes the
      division raise (`None`), and a negative one leaves the file whole. */
  method FileChunks(content: string, fileTokens: int, chunkSize: int) returns (chunks: Option<seq<string>>)
    ensures !Splits(fileTokens, chunkSize) ==> chunks == Some([content])
    ensures Splits(fileTokens, chunkSize) && chunkSize == 0 ==> chunks == None
    ensures Splits(fileTokens, chunkSize) && chunkSize > 0 ==>
      chunks.Some? && |chunks.value| <= ChunkCount(fileTokens, chunkSize).value && AllNonEmpty(chunks.value)
    ensures Splits(fileTokens, chunkSize) && chunkSize < 0 ==> chunks == Some([content])
    ensures chunks.Some? && NoEmptyParagraph(content) ==> Join(chunks.value, ParagraphBreak) == content
  {
    if Splits(fileTokens, chunkSize) {
      if chunkSize == 0 {
        return None;
      }
      var numChunks := FloorDiv(fileTokens + chunkSize - 1, chunkSize);
      assert Some(numChunks) == ChunkCount(fileTokens, chunkSize);
      var c := ChunkContentByTokens(content, numChunks);
      chunks := Some(c);
    } else {
      chunks := Some([content]);
      JoinSnoc([], content, ParagraphBreak);
    }
  }

  // ----- The token file -----

  predicate IsDigit(c: char) {
    '0' <= c <= '9'
  }

  /** Decimal digits with single underscores between them, the body `int()` accepts. */
  predicate DigitRun(s: string) {
    |s| > 0 && IsDigit(s[0]) && IsDigit(s[|s| - 1])
    && (forall k :: 0 <= k < |s| ==> IsDigit(s[k]) || s[k] == '_')
    && (forall k :: 0 <= k < |s| - 1 ==> s[k] == '_' ==> s[k + 1] != '_')
  }

  /** The number the digits of `s` spell, underscores ignored. */
  function DigitsValue(s: string): nat {
    if s == [] then 0
    else if IsDigit(s[|s| - 1]) then DigitsValue(s[..|s| - 1]) * 10 + (s[|s| - 1] as int - '0' as int)
    else DigitsValue(s[..|s| - 1])
  }

  /** `int(s)` on a stripped string: exactly an optional sign and a digit run is accepted,
      as the number the digits spell, negated after '-'; anything else is a `ValueError`
      (`None`). Digits other than ASCII ones are not modelled. */
  function ParseInt(s: string): (r: Option<int>)
    ensures r.Some? <==> DigitRun(s) || (|s| > 1 && (s[0] == '+' || s[0] == '-') && DigitRun(s[1..]))
    ensures DigitRun(s) ==> r == Some(DigitsValue(s))
    ensures |s| > 1 && s[0] == '+' && DigitRun(s[1..]) ==> r == Some(DigitsValue(s[1..]))
    ensures |s| > 1 && s[0] == '-' && DigitRun(s[1..]) ==> r == Some(-(DigitsValue(s[1..]) as int))
  {
    if |s| > 0 && (s[0] == '+' || s[0] == '-') then
      var v: int := DigitsValue(s[1..]);
      if DigitRun(s[1..]) then Some(if s[0] == '-' then -v else v) else None
    else if DigitRun(s) then Some(DigitsValue(s))
    else None
  }

  function DigitChar(d: int): (c: char)
    requires 0 <= d < 10
    ensures IsDigit(c) && c as int - '0' as int == d
  {
    ('0' as int + d) as char
  }

  /** `str(n)` for a count. */
  function Decimal(n: nat): (s: string)
    ensures |s| > 0 && forall k :: 0 <= k < |s| ==> IsDigit(s[k])
  {
    if n < 10 then [DigitChar(n)] else Decimal(n / 10) + [DigitChar(n % 10)]
  }

  /** `int(str(n)) == n`. */
  lemma {:induction false} ParseDecimal(n: nat)
    ensures DigitsValue(Decimal(n)) == n
    ensures ParseInt(Decimal(n)) == Some(n)
  {
    var s := Decimal(n);
    if n >= 10 {
      ParseDecimal(n / 10);
      assert s[..|s| - 1] == Decimal(n / 10);
    }
    assert DigitRun(s);
  }

  /** The label of the total line the token calculation appends. */
  const TotalLabel: string := "总Token数"

  /** The entry one line of the token file contributes: the line is stripped, it must hold
      a ':' and not start with the total's label, and the trimmed text before the first ':'
      names a file whose count is the integer after it. */
  function TokenLine(line: string): (r: Option<(string, int)>)
    ensures r.Some? ==> Contains(Strip(line), ":") && !StartsWith(Strip(line), TotalLabel)
  {
    var l := Strip(line);
    if Contains(l, ":") && !StartsWith(l, TotalLabel) then
      var i := Find(l, ":");
      match ParseInt(Strip(l[i + 1..]))
      case None => None
      case Some(n) => Some((Strip(l[..i]), n))
    else None
  }

  /** The map the lines give under `entry`, read in order; a later line for the same name
      wins. */
  function Collect(lines: seq<string>, entry: string -> Option<(string, int)>): (m: map<string, int>)
  {
    if lines == [] then map[]
    else
      var m := Collect(lines[..|lines| - 1], entry);
      match entry(lines[|lines| - 1])
      case None => m
      case Some(e) => m[e.0 := e.1]
  }

  /** A name is in the map exactly when some line names it. */
  lemma {:induction false} CollectKeys(lines: seq<string>, entry: string -> Option<(string, int)>, name: string)
    ensures name in Collect(lines, entry) <==> exists k :: 0 <= k < |lines| && entry(lines[k]).Some? && entry(lines[k]).value.0 == name
  {
    if lines != [] {
      var init := lines[..|lines| - 1];
      var n := |lines| - 1;
      CollectKeys(init, entry, name);
      if name in Collect(lines, entry) && !(entry(lines[n]).Some? && entry(lines[n]).value.0 == name) {
        assert name in Collect(init, entry);
        var k :| 0 <= k < |init| && entry(init[k]).Some? && entry(init[k]).value.0 == name;
        assert lines[k] == init[k];
      }
      if exists k :: 0 <= k < |lines| && entry(lines[k]).Some? && entry(lines[k]).value.0 == name {
        var k :| 0 <= k < |lines| && entry(lines[k]).Some? && entry(lines[k]).value.0 == name;
        if k < n {
          assert init[k] == lines[k];
          assert name in Collect(init, entry);
        }
      }
    }
  }

  /** A name's count is that of the last line naming it. */
  lemma {:induction false} CollectLast(lines: seq<string>, entry: string -> Option<(string, int)>, name: string)
    requires name in Collect(lines, entry)
    ensures exists k :: (0 <= k < |lines| && entry(lines[k]) == Some((name, Collect(lines, entry)[name]))
      && forall j :: k < j < |lines| ==> entry(lines[j]).None? || entry(lines[j]).value.0 != name)
  {
    var init := lines[..|lines| - 1];
    var n := |lines| - 1;
    if entry(lines[n]).Some? && entry(lines[n]).value.0 == name {
      assert entry(lines[n]) == Some((name, Collect(lines, entry)[name]));
    } else {
      assert name in Collect(init, entry) && Collect(lines, entry)[name] == Collect(init, entry)[name];
      CollectLast(init, entry, name);
      var k :| 0 <= k < |init| && entry(init[k]) == Some((name, Collect(init, entry)[name]))
        && (forall j :: k < j < |init| ==> entry(init[j]).None? || entry(init[j]).value.0 != name);
      assert lines[k] == init[k];
      assert entry(lines[k]) == Some((name, Collect(lines, entry)[name]));
      forall j | k < j < |lines|
        ensures entry(lines[j]).None? || entry(lines[j]).value.0 != name
      {
        if j < n {
          assert lines[j] == init[j];
        }
      }
    }
  }

  /** Reading one more line updates the map by that line's entry. */
  lemma CollectStep(lines: seq<string>, entry: string -> Option<(string, int)>, i: int)
    requires 0 <= i < |lines|
    ensures Collect(lines[..i + 1], entry) ==
      match entry(lines[i])
      case None => Collect(lines[..i], entry)
      case Some(e) => Collect(lines[..i], entry)[e.0 := e.1]
  {
    assert lines[..i + 1][..i] == lines[..i];
  }

  /** The token map of the file's lines. */
  function TokenMap(lines: seq<string>): map<string, int> {
    Collect(lines, TokenLine)
  }

  /** The body of the loop over the token file's lines. */
  method ParseLine(raw: string) returns (entry: Option<(string, int)>)
    ensures entry == TokenLine(raw)
  {
    var line := Strip(raw);
    if Contains(line, ":") && !StartsWith(line, TotalLabel) {
      var colon := Find(line, ":");
      var tokens := ParseInt(Strip(line[colon + 1..]));
      if tokens.Some? {
        TokenLineOf(raw, line, colon);
        return Some((Strip(line[..colon]), tokens.value));
      }
      NoCountLine(raw, line, colon);
    } else {
      NoEntryLine(raw, line);
    }
    return None;
  }

  /** The loop reading the token file (`for line in f`). */
  method ParseTokenFile(lines: seq<string>) returns (fileTokenMap: map<string, int>)
    ensures fileTokenMap == TokenMap(lines)
  {
    fileTokenMap := map[];
    var i := 0;
    while i < |lines|
      invariant 0 <= i <= |lines|
      invariant fileTokenMap == Collect(lines[..i], TokenLine)
    {
      CollectStep(lines, TokenLine, i);
      var entry := ParseLine(lines[i]);
      if entry.Some? {
        fileTokenMap := fileTokenMap[entry.value.0 := entry.value.1];
      }
      i := i + 1;
    }
    assert lines[..i] == lines;
  }

  /** A written line without its newline is already stripped. */
  lemma StripWrittenLine(l: string)
    requires l != [] && !IsSpace(l[0]) && !IsSpace(l[|l| - 1])
    ensures Strip(l + "\n") == l
  {
    var line := l + "\n";
    assert line[..|line| - 1] == l;
    assert RStrip(line) == RStrip(l);
    StripPlain(l);
  }

  /** The first ':' of `name + ":" + rest` is the one after `name`, and the text before it
      is `name`. */
  lemma FirstColon(name: string, rest: string)
    requires ':' !in name
    ensures Contains(name + ":" + rest, ":") && Find(name + ":" + rest, ":") == |name|
    ensures (name + ":" + rest)[..|name|] == name && (name + ":" + rest)[|name| + 1..] == rest
  {
    var l := name + ":" + rest;
    assert OccursAt(l, ":", |name|);
    forall j: nat | j < |name|
      ensures !OccursAt(l, ":", j)
    {
      assert l[j] == name[j];
    }
  }

  /** Text after a name that does not start with the label does not make it start with it. */
  lemma NotTotalLine(name: string, rest: string)
    requires ':' !in name && !StartsWith(name, TotalLabel)
    ensures !StartsWith(name + ":" + rest, TotalLabel)
  {
    var l := name + ":" + rest;
    if |name| < |TotalLabel| {
      assert l[|name|] == ':';
      assert ':' !in TotalLabel;
      assert |l| < |TotalLabel| || l[..|TotalLabel|][|name|] != TotalLabel[|name|];
    } else {
      assert l[..|TotalLabel|] == name[..|TotalLabel|];
    }
  }

  /** A count written with one leading space reads back. */
  lemma StripLeadingSpace(d: string)
    requires d != [] && !IsSpace(d[0]) && !IsSpace(d[|d| - 1])
    ensures Strip(" " + d) == d
  {
    assert RStrip(" " + d) == " " + d;
    assert (" " + d)[1..] == d;
    assert LStrip(" " + d) == LStrip(d);
    StripPlain(d);
  }

  /** The entry of a line, given what its stripped text, its first ':' and its two fields are. */
  lemma TokenLineOf(line: string, l: string, i: nat)
    requires Strip(line) == l && Contains(l, ":") && Find(l, ":") == i && i < |l| && !StartsWith(l, TotalLabel)
    requires ParseInt(Strip(l[i + 1..])).Some?
    ensures TokenLine(line) == Some((Strip(l[..i]), ParseInt(Strip(l[i + 1..])).value))
  {
  }

  /** A line whose count is not an integer gives no entry. */
  lemma NoCountLine(line: string, l: string, i: nat)
    requires Strip(line) == l && Contains(l, ":") && Find(l, ":") == i && i < |l| && !StartsWith(l, TotalLabel)
    requires ParseInt(Strip(l[i + 1..])).None?
    ensures TokenLine(line) == None
  {
  }

  /** A line without ':' or starting with the total's label gives no entry. */
  lemma NoEntryLine(line: string, l: string)
    requires Strip(line) == l && !(Contains(l, ":") && !StartsWith(l, TotalLabel))
    ensures TokenLine(line) == None
  {
  }

  lemma ColonSpace(name: string, d: string)
    ensures name + ": " + d + "\n" == name + ":" + (" " + d) + "\n"
  {
    assert ": " == ":" + " ";
  }

  /** A line `name: d` with `d` a written count reads back as the name and that count. */
  lemma WrittenLineReads(name: string, d: string, tokens: int)
    requires name != [] && !IsSpace(name[0]) && !IsSpace(name[|name| - 1])
    requires ':' !in name && !StartsWith(name, TotalLabel)
    requires d != [] && !IsSpace(d[|d| - 1]) && Strip(" " + d) == d && ParseInt(d) == Some(tokens)
    ensures TokenLine(name + ": " + d + "\n") == Some((name, tokens))
  {
    var l := name + ":" + (" " + d);
    ColonSpace(name, d);
    StripWrittenLine(l);
    FirstColon(name, " " + d);
    NotTotalLine(name, " " + d);
    StripPlain(name);
    TokenLineOf(l + "\n", l, |name|);
  }

  /** The lines the token calculation writes, `f"{file_name}: {tokens}\n"`, read back as the
      same file name and count when the name is stripped, holds no ':' and does not start
      with the total's label. */
  lemma TokenLineRoundTrip(name: string, tokens: nat)
    requires name != [] && !IsSpace(name[0]) && !IsSpace(name[|name| - 1])
    requires ':' !in name && !StartsWith(name, TotalLabel)
    ensures TokenLine(name + ": " + Decimal(tokens) + "\n") == Some((name, tokens))
  {
    var d := Decimal(tokens);
    assert IsDigit(d[0]) && IsDigit(d[|d| - 1]);
    StripLeadingSpace(d);
    ParseDecimal(tokens);
    WrittenLineReads(name, d, tokens);
  }

  /** The total line the token calculation appends contributes nothing. */
  lemma TotalLineIgnored(count: nat)
    ensures TokenLine(TotalLabel + ": " + Decimal(count) + "\n") == None
  {
    var l := TotalLabel + ": " + Decimal(count);
    StripWrittenLine(l);
    assert l[..|TotalLabel|] == TotalLabel;
  }

  // ----- Incremental processing -----

  /** A file the summary or question-and-answer run walks: its path, its base name, the MD5
      hash of its content, and whether the work on it got as far as recording that hash (the
      summary was generated and written, or the pairs were generated and saved; a model call
      that raises, or no pairs at all, stops short of it). */
  datatype SourceFile = SourceFile(path: string, name: string, hash: string, generated: bool)

  /** What an incremental run does with one file. */
  datatype Change = Skipped | Updated | New

  /** The skip decision: unchanged content is skipped when incremental processing is on;
      otherwise a file whose name has a stored hash is an update and any other file is new. */
  function Classify(incremental: bool, hashes: map<string, string>, file: SourceFile): (c: Change)
    ensures c == Skipped <==> incremental && file.name in hashes && hashes[file.name] == file.hash
    ensures c == New <==> file.name !in hashes
  {
    if incremental && file.name in hashes && hashes[file.name] == file.hash then Skipped
    else if file.name in hashes then Updated
    else New
  }

  /** `config.get('incremental_processing', True)`. */
  predicate Incremental(config: Record) {
    Truthy(Get(config, "incremental_processing", Bool(true)))
  }

  /** Files under a `token_count` folder and ignored file names are passed over. */
  predicate Walked(file: SourceFile, ignored: seq<string>) {
    !Contains(file.path, "token_count") && file.name !in ignored
  }

  /** The counters of a run and the stored content hashes. */
  datatype Tally = Tally(skipped: nat, newFiles: nat, updatedFiles: nat, hashes: map<string, string>)

  /** One file's effect: a skipped file only counts; a new or updated file counts as soon as
      it is classified, and has its hash recorded only once its work is done. */
  function Count(incremental: bool, ignored: seq<string>, t: Tally, file: SourceFile): Tally {
    if !Walked(file, ignored) then t
    else
      var stored := if file.generated then t.hashes[file.name := file.hash] else t.hashes;
      match Classify(incremental, t.hashes, file)
      case Skipped => t.(skipped := t.skipped + 1)
      case Updated => t.(updatedFiles := t.updatedFiles + 1, hashes := stored)
      case New => t.(newFiles := t.newFiles + 1, hashes := stored)
  }

  /** The tally after walking `files` in order from `start`. */
  function Tallied(incremental: bool, ignored: seq<string>, files: seq<SourceFile>, start: Tally): Tally {
    if files == [] then start
    else Count(incremental, ignored, Tallied(incremental, ignored, files[..|files| - 1], start), files[|files| - 1])
  }

  /** How many of `files` are walked. */
  function WalkedCount(files: seq<SourceFile>, ignored: seq<string>): nat {
    if files == [] then 0
    else WalkedCount(files[..|files| - 1], ignored) + (if Walked(files[|files| - 1], ignored) then 1 else 0)
  }

  /** Every walked file is counted once, whether or not its work succeeds, and nothing is
      skipped without incremental processing. */
  lemma {:induction false} TalliedCounts(incremental: bool, ignored: seq<string>, files: seq<SourceFile>, hashes: map<string, string>)
    ensures var t := Tallied(incremental, ignored, files, Tally(0, 0, 0, hashes));
      t.skipped + t.newFiles + t.updatedFiles == WalkedCount(files, ignored)
      && (!incremental ==> t.skipped == 0)
  {
    if files != [] {
      TalliedCounts(incremental, ignored, files[..|files| - 1], hashes);
    }
  }

  /** After a run every walked file whose work succeeded has a stored hash, and the stored
      names are the old ones plus those of such files. */
  lemma {:induction false} TalliedHashes(incremental: bool, ignored: seq<string>, files: seq<SourceFile>, start: Tally)
    ensures var h := Tallied(incremental, ignored, files, start).hashes;
      (forall k :: 0 <= k < |files| && Walked(files[k], ignored) && files[k].generated ==> files[k].name in h)
      && (forall n :: n in h ==> n in start.hashes || exists k :: 0 <= k < |files| && Walked(files[k], ignored) && files[k].generated && files[k].name == n)
  {
    if files != [] {
      var init := files[..|files| - 1];
      TalliedHashes(incremental, ignored, init, start);
      assert forall k :: 0 <= k < |init| ==> init[k] == files[k];
    }
  }

  /** The names of `files` each come with one hash: the content did not change between
      two files of the same name. */
  predicate OneHashPerName(files: seq<SourceFile>) {
    forall i, j :: 0 <= i < |files| && 0 <= j < |files| && files[i].name == files[j].name ==> files[i].hash == files[j].hash
  }

  /** The stored hash of every walked file whose work succeeded is its own hash. */
  predicate GeneratedRecorded(files: seq<SourceFile>, ignored: seq<string>, hashes: map<string, string>) {
    forall k :: 0 <= k < |files| && Walked(files[k], ignored) && files[k].generated ==> files[k].name in hashes && hashes[files[k].name] == files[k].hash
  }

  /** The stored hash of every walked file is its own hash. */
  predicate Recorded(files: seq<SourceFile>, ignored: seq<string>, hashes: map<string, string>) {
    forall k :: 0 <= k < |files| && Walked(files[k], ignored) ==> files[k].name in hashes && hashes[files[k].name] == files[k].hash
  }

  lemma {:induction false} TalliedRecords(incremental: bool, ignored: seq<string>, files: seq<SourceFile>, start: Tally)
    requires OneHashPerName(files)
    ensures GeneratedRecorded(files, ignored, Tallied(incremental, ignored, files, start).hashes)
  {
    if files != [] {
      var init := files[..|files| - 1];
      assert OneHashPerName(init) by {
        assert forall k :: 0 <= k < |init| ==> init[k] == files[k];
      }
      TalliedRecords(incremental, ignored, init, start);
      assert forall k :: 0 <= k < |init| ==> init[k] == files[k];
    }
  }

  /** Walking files whose hashes are all recorded skips every one of them and stores
      nothing new. */
  lemma {:induction false} AllRecordedSkipped(ignored: seq<string>, files: seq<SourceFile>, start: Tally)
    requires Recorded(files, ignored, start.hashes)
    ensures Tallied(true, ignored, files, start) == start.(skipped := start.skipped + WalkedCount(files, ignored))
  {
    if files != [] {
      var init := files[..|files| - 1];
      assert Recorded(init, ignored, start.hashes) by {
        assert forall k :: 0 <= k < |init| ==> init[k] == files[k];
      }
      AllRecordedSkipped(ignored, init, start);
    }
  }

  /** Every walked file's work succeeded. */
  predicate AllGenerated(files: seq<SourceFile>, ignored: seq<string>) {
    forall k :: 0 <= k < |files| && Walked(files[k], ignored) ==> files[k].generated
  }

  /** An incremental run straight after a run over the same unchanged files in which every
      file's work succeeded skips them all. */
  lemma RerunSkipsAll(incremental: bool, ignored: seq<string>, files: seq<SourceFile>, hashes: map<string, string>)
    requires OneHashPerName(files) && AllGenerated(files, ignored)
    ensures var first := Tallied(incremental, ignored, files, Tally(0, 0, 0, hashes));
      Tallied(true, ignored, files, Tally(0, 0, 0, first.hashes)) == Tally(WalkedCount(files, ignored), 0, 0, first.hashes)
  {
    var first := Tallied(incremental, ignored, files, Tally(0, 0, 0, hashes));
    TalliedRecords(incremental, ignored, files, Tally(0, 0, 0, hashes));
    AllRecordedSkipped(ignored, files, Tally(0, 0, 0, first.hashes));
  }

  /** A new file whose work fails is counted as new, records no hash, and so is new again on
      the next incremental run. */
  lemma FailedFileStaysNew(ignored: seq<string>, file: SourceFile, start: Tally)
    requires Walked(file, ignored) && !file.generated && file.name !in start.hashes
    ensures var first := Count(true, ignored, start, file);
      first.newFiles == start.newFiles + 1 && first.hashes == start.hashes
      && Classify(true, first.hashes, file) == New
  {
  }

  /** The body of the workers' loop for one file: the filters, the skip decision, the
      counters, and the hash recorded once the file's work has succeeded. */
  method CountFile(incremental: bool, ignored: seq<string>, skipped: nat, newFiles: nat, updatedFiles: nat,
                          contentHashes: map<string, string>, file: SourceFile)
    returns (skipped': nat, newFiles': nat, updatedFiles': nat, contentHashes': map<string, string>)
    ensures Tally(skipped', newFiles', updatedFiles', contentHashes')
         == Count(incremental, ignored, Tally(skipped, newFiles, updatedFiles, contentHashes), file)
  {
    skipped', newFiles', updatedFiles', contentHashes' := skipped, newFiles, updatedFiles, contentHashes;
    if Contains(file.path, "token_count") || file.name in ignored {
      return;
    }
    if incremental && file.name in contentHashes && contentHashes[file.name] == file.hash {
      skipped' := skipped + 1;
      return;
    }
    if file.name in contentHashes {
      updatedFiles' := updatedFiles + 1;
    } else {
      newFiles' := newFiles + 1;
    }
    if file.generated {
      contentHashes' := contentHashes[file.name := file.hash];
    }
  }

  /** The bookkeeping of the summary and question-and-answer workers' loop over files: the
      counters and the `content_hashes` dictionary. The model calls themselves are outside this
      model; their outcome for each file is its `generated` flag. */
  method TallyFiles(config: Record, ignored: seq<string>, files: seq<SourceFile>, hashes: map<string, string>)
    returns (skipped: nat, newFiles: nat, updatedFiles: nat, contentHashes: map<string, string>)
    ensures Tally(skipped, newFiles, updatedFiles, contentHashes) == Tallied(Incremental(config), ignored, files, Tally(0, 0, 0, hashes))
  {
    var incremental := Truthy(Get(config, "incremental_processing", Bool(true)));
    skipped, newFiles, updatedFiles, contentHashes := 0, 0, 0, hashes;
    var i := 0;
    while i < |files|
      invariant 0 <= i <= |files|
      invariant Tally(skipped, newFiles, updatedFiles, contentHashes) == Tallied(incremental, ignored, files[..i], Tally(0, 0, 0, hashes))
    {
      assert files[..i + 1][..i] == files[..i];
      skipped, newFiles, updatedFiles, contentHashes := CountFile(incremental, ignored, skipped, newFiles, updatedFiles, contentHashes, files[i]);
      i := i + 1;
    }
    assert files[..i] == files;
  }

  // ----- Cleaning the model's answer -----

  /** Removes a leading "```json", then a leading "```". */
  function DropOpening(c: string): (r: string)
    ensures |r| <= |c|
  {
    var c1 := if StartsWith(c, "```json") then c[7..] else c;
    if StartsWith(c1, "```") then c1[3..] else c1
  }

  /** Removes a trailing "```". */
  function DropClosing(c: string): (r: string)
    ensures |r| <= |c|
  {
    if EndsWith(c, "```") then c[..|c| - 3] else c
  }

  /** The text the question-and-answer parser works on: stripped, without its fences,
      stripped again. */
  function StripFences(text: string): (r: string)
    ensures r == Strip(r)
  {
    var c := DropClosing(DropOpening(Strip(text)));
    StripIdempotent(c);
    Strip(c)
  }

  /** Text without fences is only stripped. */
  lemma UnfencedText(text: string)
    requires !StartsWith(Strip(text), "```") && !EndsWith(Strip(text), "```")
    ensures StripFences(text) == Strip(text)
  {
    var c := Strip(text);
    assert DropOpening(c) == c by {
      if |c| >= 7 {
        assert c[..3] == c[..7][..3];
      }
    }
    assert DropClosing(c) == c;
    StripIdempotent(text);
  }

  /** A body between newlines comes back from stripping. */
  lemma StripBetweenNewlines(body: string)
    requires body != [] && !IsSpace(body[0]) && !IsSpace(body[|body| - 1])
    ensures Strip("\n" + body + "\n") == body
  {
    var c := "\n" + body + "\n";
    assert RStrip(c) == "\n" + body by {
      assert c[..|c| - 1] == "\n" + body;
      assert RStrip(c) == RStrip("\n" + body);
    }
    assert LStrip("\n" + body) == body by {
      assert ("\n" + body)[1..] == body;
      assert LStrip("\n" + body) == LStrip(body);
      StripPlain(body);
    }
  }

  /** What is left once the opening fence is removed. */
  lemma OpeningFence(body: string, lang: string)
    requires lang == "json" || lang == ""
    ensures DropOpening("```" + lang + "\n" + body + "\n```") == "\n" + body + "\n```"
  {
    var inner := "\n" + body + "\n```";
    FenceShape(lang, body);
    if lang == "json" {
      assert "```" + lang == "```json";
      DropJsonFence(inner);
    } else {
      assert "```" + lang == "```";
      DropPlainFence(inner);
    }
  }

  lemma FenceShape(lang: string, body: string)
    ensures "```" + lang + "\n" + body + "\n```" == ("```" + lang) + ("\n" + body + "\n```")
  {
  }

  lemma DropJsonFence(inner: string)
    requires inner != [] && inner[0] == '\n'
    ensures DropOpening("```json" + inner) == inner
  {
    var text := "```json" + inner;
    assert text[..7] == "```json";
    assert text[7..] == inner;
  }

  lemma DropPlainFence(inner: string)
    requires inner != [] && inner[0] == '\n'
    ensures DropOpening("```" + inner) == inner
  {
    var text := "```" + inner;
    assert text[3] == '\n';
    assert text[..3] == "```";
    assert text[3..] == inner;
  }

  /** The body of a fenced block comes back as it was written, whether the fence names
      json or not. */
  lemma FencedBlock(body: string, lang: string)
    requires lang == "json" || lang == ""
    requires body != [] && !IsSpace(body[0]) && !IsSpace(body[|body| - 1])
    ensures StripFences("```" + lang + "\n" + body + "\n```") == body
  {
    var text := "```" + lang + "\n" + body + "\n```";
    var inner := "\n" + body + "\n```";
    assert Strip(text) == text by {
      StripPlain(text);
    }
    OpeningFence(body, lang);
    assert DropClosing(inner) == "\n" + body + "\n" by {
      assert inner == ("\n" + body + "\n") + "```";
    }
    StripBetweenNewlines(body);
  }

  /** A normalised pair: `{'q': ..., 'a': ...}`. */
  datatype QaPair = QaPair(q: string, a: string)

  /** `qa.get('q') or qa.get('question', '')`. */
  function Question(qa: Record): Value {
    if Truthy(Get(qa, "q", Null)) then Get(qa, "q", Null) else Get(qa, "question", Str(""))
  }

  /** `qa.get('a') or qa.get('answer', '')`. */
  function Answer(qa: Record): Value {
    if Truthy(Get(qa, "a", Null)) then Get(qa, "a", Null) else Get(qa, "answer", Str(""))
  }

  /** A dictionary entry whose question and answer are both truthy reaches `.strip()`. */
  predicate Offered(v: Value) {
    v.Dict? && Truthy(Question(v.fields)) && Truthy(Answer(v.fields))
  }

  /** An offered entry whose question or answer is not a string: `.strip()` raises, and
      the whole parse returns []. */
  predicate Malformed(v: Value) {
    Offered(v) && !(Question(v.fields).Str? && Answer(v.fields).Str?)
  }

  predicate WellFormed(v: Value) {
    Offered(v) && Question(v.fields).Str? && Answer(v.fields).Str?
  }

  function PairOf(v: Value): (p: QaPair)
    ensures p.q == Strip(p.q) && p.a == Strip(p.a)
  {
    StripIdempotent(if WellFormed(v) then Question(v.fields).s else "");
    StripIdempotent(if WellFormed(v) then Answer(v.fields).s else "");
    if WellFormed(v) then QaPair(Strip(Question(v.fields).s), Strip(Answer(v.fields).s)) else QaPair("", "")
  }

  /** What the normalisation loop does with one entry: passes it over, appends a pair, or
      raises, which makes the whole parse return []. */
  datatype Entry = Ignored | Accepted(pair: QaPair) | Raises

  /** The normalisation loop over `pairs`, given what it does with each entry. */
  function Normalize(pairs: seq<Value>, examine: Value -> Entry): Option<seq<QaPair>> {
    if pairs == [] then Some([])
    else match Normalize(pairs[..|pairs| - 1], examine)
      case None => None
      case Some(r) =>
        match examine(pairs[|pairs| - 1])
        case Raises => None
        case Accepted(p) => Some(r + [p])
        case Ignored => Some(r)
  }

  /** The loop finishes unless an entry raises, and then holds exactly the accepted pairs. */
  lemma {:induction false} NormalizeExactly(pairs: seq<Value>, examine: Value -> Entry, p: QaPair)
    ensures Normalize(pairs, examine).Some? <==> forall k :: 0 <= k < |pairs| ==> !examine(pairs[k]).Raises?
    ensures Normalize(pairs, examine).Some? ==>
      (p in Normalize(pairs, examine).value <==> exists k :: 0 <= k < |pairs| && examine(pairs[k]) == Accepted(p))
  {
    if pairs != [] {
      var init := pairs[..|pairs| - 1];
      NormalizeExactly(init, examine, p);
      assert forall k :: 0 <= k < |init| ==> init[k] == pairs[k];
      if exists k :: 0 <= k < |pairs| && examine(pairs[k]) == Accepted(p) {
        var k :| 0 <= k < |pairs| && examine(pairs[k]) == Accepted(p);
        if k < |init| {
          assert examine(init[k]) == Accepted(p);
        }
      }
    }
  }

  /** The loop body as written: an offered entry is trimmed and appended even when trimming
      leaves its question or answer empty. */
  function ExamineAsWritten(v: Value): (e: Entry)
    ensures e.Raises? <==> Malformed(v)
    ensures e.Accepted? <==> WellFormed(v)
    ensures e.Accepted? ==> e.pair == PairOf(v)
  {
    if Malformed(v) then Raises
    else if Offered(v) then Accepted(PairOf(v))
    else Ignored
  }

  /** The parser's result as written. */
  function NormalizeQaAsWritten(pairs: seq<Value>): seq<QaPair> {
    Normalize(pairs, ExamineAsWritten).GetOr([])
  }

  /** As written, a pair is in the result exactly when no entry is malformed and it comes
      from an offered entry; every such pair is trimmed, but may be empty. */
  lemma NormalizeQaAsWrittenExactly(pairs: seq<Value>, p: QaPair)
    ensures p in NormalizeQaAsWritten(pairs) <==>
      (forall k :: 0 <= k < |pairs| ==> !Malformed(pairs[k])) && exists k :: 0 <= k < |pairs| && Offered(pairs[k]) && p == PairOf(pairs[k])
    ensures p in NormalizeQaAsWritten(pairs) ==> p.q == Strip(p.q) && p.a == Strip(p.a)
  {
    NormalizeExactly(pairs, ExamineAsWritten, p);
    if p in NormalizeQaAsWritten(pairs) {
      var k :| 0 <= k < |pairs| && ExamineAsWritten(pairs[k]) == Accepted(p);
    }
    if (forall k :: 0 <= k < |pairs| ==> !Malformed(pairs[k])) && exists k :: 0 <= k < |pairs| && Offered(pairs[k]) && p == PairOf(pairs[k]) {
      var k :| 0 <= k < |pairs| && Offered(pairs[k]) && p == PairOf(pairs[k]);
      assert ExamineAsWritten(pairs[k]) == Accepted(p);
    }
  }

  /** As written too, a malformed entry anywhere empties the result. */
  lemma MalformedEmptiesAsWritten(pairs: seq<Value>, k: int)
    requires 0 <= k < |pairs| && Malformed(pairs[k])
    ensures NormalizeQaAsWritten(pairs) == []
  {
    NormalizeExactly(pairs, ExamineAsWritten, QaPair("", ""));
  }

  /** The check happens before trimming, so a question of spaces alone yields an empty
      question. */
  lemma BlankQuestionKept()
    ensures NormalizeQaAsWritten([Dict(map["q" := Str(" "), "a" := Str("x")])]) == [QaPair("", "x")]
  {
    var v := Dict(map["q" := Str(" "), "a" := Str("x")]);
    BlankFields(v);
    BlankEntryAccepted(v);
    NormalizeSingle(v, ExamineAsWritten);
  }

  /** One entry alone gives what examining it gives. */
  lemma NormalizeSingle(v: Value, examine: Value -> Entry)
    ensures examine(v).Raises? ==> Normalize([v], examine) == None
    ensures examine(v).Accepted? ==> Normalize([v], examine) == Some([examine(v).pair])
    ensures examine(v).Ignored? ==> Normalize([v], examine) == Some([])
  {
    assert [v][..0] == [];
    assert Normalize([v][..0], examine) == Some([]);
    if examine(v).Accepted? {
      assert [] + [examine(v).pair] == [examine(v).pair];
    }
  }

  /** The entry with a blank question is offered, well formed, and trimmed to an empty
      question. */
  lemma BlankEntryAccepted(v: Value)
    requires v.Dict? && Question(v.fields) == Str(" ") && Answer(v.fields) == Str("x")
    ensures ExamineAsWritten(v) == Accepted(QaPair("", "x"))
  {
    StringsWellFormed(v, " ", "x");
    BlankPair(v);
  }

  lemma BlankPair(v: Value)
    requires v.Dict? && Question(v.fields) == Str(" ") && Answer(v.fields) == Str("x")
    ensures PairOf(v) == QaPair("", "x")
  {
    StringsWellFormed(v, " ", "x");
    PairOfStrings(v, " ", "x");
    BlankStrips();
  }

  lemma BlankFields(v: Value)
    requires v == Dict(map["q" := Str(" "), "a" := Str("x")])
    ensures v.Dict? && Question(v.fields) == Str(" ") && Answer(v.fields) == Str("x")
  {
  }

  /** An entry whose question and answer are non-empty strings is accepted as written,
      trimmed. */
  lemma ExamineStrings(v: Value, q: string, a: string)
    requires v.Dict? && Question(v.fields) == Str(q) && Answer(v.fields) == Str(a) && q != "" && a != ""
    ensures ExamineAsWritten(v) == Accepted(QaPair(Strip(q), Strip(a)))
  {
    StringsWellFormed(v, q, a);
    PairOfStrings(v, q, a);
  }

  lemma StringsWellFormed(v: Value, q: string, a: string)
    requires v.Dict? && Question(v.fields) == Str(q) && Answer(v.fields) == Str(a) && q != "" && a != ""
    ensures Offered(v) && WellFormed(v) && !Malformed(v)
  {
    assert Truthy(Str(q)) && Truthy(Str(a));
  }

  lemma PairOfStrings(v: Value, q: string, a: string)
    requires WellFormed(v) && Question(v.fields) == Str(q) && Answer(v.fields) == Str(a)
    ensures PairOf(v) == QaPair(Strip(q), Strip(a))
  {
  }

  lemma BlankStrips()
    ensures Strip(" ") == "" && Strip("x") == "x"
  {
    assert RStrip(" ") == RStrip("");
    StripPlain("x");
  }

  /** An entry whose trimmed question and answer are both non-empty. */
  predicate Kept(v: Value) {
    WellFormed(v) && PairOf(v).q != "" && PairOf(v).a != ""
  }

  /** The loop body the parser evidently intends: entries that cannot be trimmed still
      raise, but only pairs whose trimmed question and answer are non-empty are kept. */
  function Examine(v: Value): (e: Entry)
    ensures e.Raises? <==> Malformed(v)
    ensures e.Accepted? <==> Kept(v)
    ensures e.Accepted? ==> e.pair == PairOf(v) && e.pair.q != "" && e.pair.a != ""
  {
    if Malformed(v) then Raises
    else if Kept(v) then Accepted(PairOf(v))
    else Ignored
  }

  /** QA normalisation: the kept pairs, trimmed, or [] when an entry cannot be trimmed. */
  function NormalizeQa(pairs: seq<Value>): seq<QaPair> {
    Normalize(pairs, Examine).GetOr([])
  }

  /** The same blank question is dropped. */
  lemma BlankQuestionDropped()
    ensures NormalizeQa([Dict(map["q" := Str(" "), "a" := Str("x")])]) == []
  {
    var v := Dict(map["q" := Str(" "), "a" := Str("x")]);
    BlankFields(v);
    StringsWellFormed(v, " ", "x");
    PairOfStrings(v, " ", "x");
    BlankStrips();
    assert !Malformed(v) && !Kept(v);
    NormalizeSingle(v, Examine);
  }

  /** A pair is in the result exactly when no entry is malformed and it comes from a kept
      entry; every such pair has a non-empty, trimmed question and answer. */
  lemma NormalizeQaExactly(pairs: seq<Value>, p: QaPair)
    ensures p in NormalizeQa(pairs) <==>
      (forall k :: 0 <= k < |pairs| ==> !Malformed(pairs[k])) && exists k :: 0 <= k < |pairs| && Kept(pairs[k]) && p == PairOf(pairs[k])
    ensures p in NormalizeQa(pairs) ==> p.q != "" && p.a != "" && p.q == Strip(p.q) && p.a == Strip(p.a)
  {
    NormalizeExactly(pairs, Examine, p);
    if p in NormalizeQa(pairs) {
      var k :| 0 <= k < |pairs| && Examine(pairs[k]) == Accepted(p);
    }
  }

  /** A malformed entry anywhere empties the result. */
  lemma MalformedEmpties(pairs: seq<Value>, k: int)
    requires 0 <= k < |pairs| && Malformed(pairs[k])
    ensures NormalizeQa(pairs) == []
  {
    NormalizeExactly(pairs, Examine, QaPair("", ""));
  }
}
