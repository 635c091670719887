/** What the header lines of a part say about it, line by line and character by character. */
module MultipartHeaders {
  import opened Texts
  import opened Trimming
  import opened Multipart

  // ---------------------------------------------------------------- what a line says

  /** A line that begins with `content-type:` in any letter case. */
  predicate NamesType(line: string) {
    |line| >= 13 && forall i :: 0 <= i < 13 ==> line[i] == "content-type:"[i] || line[i] == "CONTENT-TYPE:"[i]
  }

  /** Any other line, if it reads as a content disposition. */
  predicate NamesFile(cfg: Config, line: string) {
    !NamesType(line) && cfg.disposition(line).Some?
  }

  // ---------------------------------------------------------------- the last line that says it

  /** Of `k` lines the last one names the type, and none after them does. */
  ghost predicate TypeFrom(headers: seq<string>, k: nat, contentType: string) {
    && k <= |headers|
    && (forall j :: k <= j < |headers| ==> !NamesType(headers[j]))
    && if k == 0 then contentType == "" else NamesType(headers[k - 1]) && Stripped(headers[k - 1][13..], contentType)
  }

  ghost predicate FileFrom(cfg: Config, headers: seq<string>, k: nat, name: string, filename: string) {
    && k <= |headers|
    && (forall j :: k <= j < |headers| ==> !NamesFile(cfg, headers[j]))
    && if k == 0 then name == "" && filename == ""
       else NamesFile(cfg, headers[k - 1]) && cfg.disposition(headers[k - 1]) == Some((name, filename))
  }

  /**
   Name and file name are those of the last line that reads as a content disposition, the content
   type is what the last line that names it has behind the colon, and each is empty without such a line.
   */
  ghost predicate Describes(cfg: Config, headers: seq<string>, file: File) {
    && (exists k: nat :: TypeFrom(headers, k, file.contentType))
    && (exists k: nat :: FileFrom(cfg, headers, k, file.name, file.filename))
  }

  // ---------------------------------------------------------------- what the parser makes of them

  function FoldHeaders(cfg: Config, file: File, headers: seq<string>): File
    decreases |headers|
  {
    if headers == [] then file else FoldHeaders(cfg, ApplyHeader(cfg, file, headers[0]), headers[1..])
  }

  /** The comparison that ignores case is the one with both spellings. */
  lemma TypeTest(line: string)
    ensures NamesType(line) <==> |line| >= |CONTENT_TYPE| && SameIgnoringCase(line[..|CONTENT_TYPE|], CONTENT_TYPE)
  {
    if |line| >= 13 {
      var head := line[..13];
      forall i | 0 <= i < 13
        ensures ToLower(head[i]) == ToLower(CONTENT_TYPE[i]) <==> line[i] == "content-type:"[i] || line[i] == "CONTENT-TYPE:"[i]
      {
        SpellingTest(line[i], i);
      }
    }
  }

  lemma SpellingTest(c: char, i: nat)
    requires i < 13
    ensures ToLower(c) == ToLower(CONTENT_TYPE[i]) <==> c == "content-type:"[i] || c == "CONTENT-TYPE:"[i]
  {
  }

  /** The effect of one line on what is known of the file. */
  lemma LineSays(cfg: Config, file: File, line: string)
    ensures var f := ApplyHeader(cfg, file, line);
            && (if NamesType(line) then Stripped(line[13..], f.contentType) else f.contentType == file.contentType)
            && (if NamesFile(cfg, line) then cfg.disposition(line) == Some((f.name, f.filename))
                else f.name == file.name && f.filename == file.filename)
  {
    hide SameIgnoringCase, TrimCopy, Stripped, NamesType;
    TypeTest(line);
    if NamesType(line) { TrimStrips(line[13..]); }
  }

  lemma {:induction false} FoldLast(cfg: Config, file: File, headers: seq<string>)
    requires headers != []
    ensures var n := |headers| - 1;
            FoldHeaders(cfg, file, headers) == ApplyHeader(cfg, FoldHeaders(cfg, file, headers[..n]), headers[n])
    decreases |headers|
  {
    hide ApplyHeader;
    var n := |headers| - 1;
    if n > 0 {
      FoldLast(cfg, ApplyHeader(cfg, file, headers[0]), headers[1..]);
      assert headers[1..][..n - 1] == headers[..n][1..];
    }
  }

  lemma {:induction false} FoldDescribes(cfg: Config, headers: seq<string>)
    ensures Describes(cfg, headers, FoldHeaders(cfg, File("", "", ""), headers))
    decreases |headers|
  {
    hide ApplyHeader, FoldHeaders, NamesType, NamesFile, Stripped;
    if headers == [] {
      FoldNothing(cfg);
      assert TypeFrom(headers, 0, "") && FileFrom(cfg, headers, 0, "", "");
    } else {
      var n := |headers| - 1;
      var init, line := headers[..n], headers[n];
      var f := FoldHeaders(cfg, File("", "", ""), init);
      FoldDescribes(cfg, init);
      FoldLast(cfg, File("", "", ""), headers);
      LineSays(cfg, f, line);
      var f' := ApplyHeader(cfg, f, line);
      if NamesType(line) {
        assert TypeFrom(headers, n + 1, f'.contentType);
      } else {
        var k: nat :| TypeFrom(init, k, f.contentType);
        assert TypeFrom(headers, k, f'.contentType);
      }
      if NamesFile(cfg, line) {
        assert FileFrom(cfg, headers, n + 1, f'.name, f'.filename);
      } else {
        var k: nat :| FileFrom(cfg, init, k, f.name, f.filename);
        assert FileFrom(cfg, headers, k, f'.name, f'.filename);
      }
    }
  }

  lemma FoldNothing(cfg: Config)
    ensures FoldHeaders(cfg, File("", "", ""), []) == File("", "", "")
  {
  }

  lemma LastType(headers: seq<string>, k: nat, contentType: string, i: nat)
    requires TypeFrom(headers, k, contentType) && i < |headers| && NamesType(headers[i])
    ensures i < k
  {
  }

  lemma LastFile(cfg: Config, headers: seq<string>, k: nat, name: string, filename: string, i: nat)
    requires FileFrom(cfg, headers, k, name, filename) && i < |headers| && NamesFile(cfg, headers[i])
    ensures i < k
  {
  }

  lemma DescribesOnce(cfg: Config, headers: seq<string>, f: File, f': File)
    requires Describes(cfg, headers, f) && Describes(cfg, headers, f')
    ensures f == f'
  {
    hide NamesFile, Stripped;
    var k: nat :| TypeFrom(headers, k, f.contentType);
    var k': nat :| TypeFrom(headers, k', f'.contentType);
    if k > 0 { LastType(headers, k', f'.contentType, k - 1); }
    if k' > 0 { LastType(headers, k, f.contentType, k' - 1); }
    if k > 0 { StrippedOnce(headers[k - 1][13..], f.contentType, f'.contentType); }
    var n: nat :| FileFrom(cfg, headers, n, f.name, f.filename);
    var n': nat :| FileFrom(cfg, headers, n', f'.name, f'.filename);
    if n > 0 { LastFile(cfg, headers, n', f'.name, f'.filename, n - 1); }
    if n' > 0 { LastFile(cfg, headers, n, f.name, f.filename, n' - 1); }
  }

  /** The parser's file information is the one the header lines describe. */
  lemma DescribesExactly(cfg: Config, headers: seq<string>, file: File)
    ensures Describes(cfg, headers, file) <==> file == FoldHeaders(cfg, File("", "", ""), headers)
  {
    hide Describes, FoldHeaders;
    FoldDescribes(cfg, headers);
    if Describes(cfg, headers, file) { DescribesOnce(cfg, headers, file, FoldHeaders(cfg, File("", "", ""), headers)); }
  }
}
