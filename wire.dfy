/**
 * The wire layer of the Nim game protocol: how a received buffer is cut into
 * `|`-separated tokens (the `strtok` loop the server runs on every message)
 * and how `send_message` frames an outgoing content as `0|<len>|<content>`.
 */
module Wire {
  import opened Optional
  import opened CText

  const Delim: char := '|'

  /** At most this many tokens are kept from one buffer. */
  const MaxTokens: nat := 19

  /** `vsnprintf` into a 1024-byte buffer keeps at most this many content bytes. */
  const MaxContent: nat := 1023

  /**
   * What one `read` call on a peer's socket yields: end of file or an error
   * (a result of zero or less), or the bytes read. A read takes at most
   * 1023 bytes, the buffer size less one for the terminating NUL.
   */
  datatype ReadResult = Closed | Received(data: string)

  /** The server treats a result of zero bytes like end of file. */
  predicate Disconnected(r: ReadResult) { r.Closed? || r.data == [] }

  /** What `strtok` can hand back: a non-empty run without a delimiter. */
  predicate IsToken(t: string) { t != [] && Delim !in t }

  /** The C string held by a buffer: everything before the first NUL. */
  function CString(buf: string): (s: string)
    ensures s <= buf && '\0' !in s
    ensures |s| < |buf| ==> buf[|s|] == '\0'
    ensures '\0' !in buf ==> s == buf
    decreases |buf|
  {
    if buf == [] || buf[0] == '\0' then [] else [buf[0]] + CString(buf[1..])
  }

  /** The length of the run of non-delimiter characters at the start of `s`. */
  function FieldLength(s: string): (n: nat)
    ensures n <= |s| && Delim !in s[..n]
    ensures n < |s| ==> s[n] == Delim
    decreases |s|
  {
    if s == [] || s[0] == Delim then 0
    else
      var n := 1 + FieldLength(s[1..]);
      assert s[..n] == [s[0]] + s[1..][..n - 1];
      n
  }

  /**
   * All the tokens successive `strtok(…, "|")` calls return for `s`: runs of
   * delimiters are skipped, so no token is empty.
   */
  function Split(s: string): (tokens: seq<string>)
    ensures forall t <- tokens :: IsToken(t)
    decreases |s|
  {
    if s == [] then []
    else if s[0] == Delim then Split(s[1..])
    else
      var n := FieldLength(s);
      [s[..n]] + Split(s[n..])
  }

  /**
   * One `strtok` call resuming at `pos`: the next token and the position just
   * past it, or `None` once only delimiters remain.
   */
  function NextToken(s: string, pos: nat): (r: Option<(string, nat)>)
    requires pos <= |s|
    ensures r.Some? ==> pos < r.value.1 <= |s|
    decreases |s| - pos
  {
    if pos == |s| then None
    else if s[pos] == Delim then NextToken(s, pos + 1)
    else
      var n := FieldLength(s[pos..]);
      Some((s[pos..pos + n], pos + n))
  }

  /** A resumed `strtok` call returns the first remaining token and leaves the rest. */
  lemma {:induction false} NextTokenSplit(s: string, pos: nat)
    requires pos <= |s|
    ensures NextToken(s, pos).None? ==> Split(s[pos..]) == []
    ensures NextToken(s, pos).Some? ==>
      Split(s[pos..]) == [NextToken(s, pos).value.0] + Split(s[NextToken(s, pos).value.1..])
    decreases |s| - pos
  {
    if pos < |s| {
      if s[pos] == Delim {
        assert s[pos..][1..] == s[pos + 1..];
        NextTokenSplit(s, pos + 1);
      } else {
        var n := FieldLength(s[pos..]);
        assert s[pos..][..n] == s[pos..pos + n];
        assert s[pos..][n..] == s[pos + n..];
      }
    }
  }

  /** A character that does not occur in a string occurs in none of its tokens. */
  lemma {:induction false} SplitExcludes(s: string, c: char)
    requires c !in s
    ensures forall t <- Split(s) :: c !in t
    decreases |s|
  {
    if s != [] {
      if s[0] == Delim {
        assert c !in s[1..];
        SplitExcludes(s[1..], c);
      } else {
        var n := FieldLength(s);
        assert c !in s[..n] && c !in s[n..];
        SplitExcludes(s[n..], c);
      }
    }
  }

  /** The first `MaxTokens` of a token list. */
  function Capped(tokens: seq<string>): (r: seq<string>)
    ensures r <= tokens && |r| <= MaxTokens
    ensures |tokens| <= MaxTokens ==> r == tokens
    ensures |tokens| > MaxTokens ==> |r| == MaxTokens
  {
    if |tokens| <= MaxTokens then tokens else tokens[..MaxTokens]
  }

  /** The token list the server hands to the parser for a received buffer. */
  function TokensOf(buffer: string): (tokens: seq<string>)
    ensures tokens <= Split(CString(buffer))
    ensures |tokens| == if |Split(CString(buffer))| < MaxTokens then |Split(CString(buffer))| else MaxTokens
  {
    Capped(Split(CString(buffer)))
  }

  /**
   * The tokenizing loop: `strtok` until it returns NULL or 19 tokens are
   * kept. `pos` stands for the position `strtok` keeps between calls.
   */
  method Tokenize(buffer: string) returns (tokens: seq<string>)
    ensures tokens == TokensOf(buffer)
  {
    var s := CString(buffer);
    ghost var all := Split(s);
    tokens := [];
    var pos := 0;
    var next := NextToken(s, pos);
    while next.Some? && |tokens| < MaxTokens
      invariant pos <= |s| && |tokens| <= MaxTokens
      invariant next == NextToken(s, pos)
      invariant tokens + Split(s[pos..]) == all
      decreases |s| - pos
    {
      NextTokenSplit(s, pos);
      var token := next.value.0;
      assert tokens + [token] + Split(s[next.value.1..]) == all;
      tokens := tokens + [token];
      pos := next.value.1;
      next := NextToken(s, pos);
    }
    NextTokenSplit(s, pos);
    assert all[..|tokens|] == tokens;
  }

  /** A field list written out the way every message content is: each field followed by `|`. */
  function Join(fields: seq<string>): (s: string)
    decreases |fields|
  {
    if fields == [] then [] else fields[0] + [Delim] + Join(fields[1..])
  }

  /** The non-empty fields of a list, in order: what survives `strtok`. */
  function NonEmpty(fields: seq<string>): (r: seq<string>)
    ensures |r| <= |fields|
    decreases |fields|
  {
    if fields == [] then []
    else if fields[0] == [] then NonEmpty(fields[1..])
    else [fields[0]] + NonEmpty(fields[1..])
  }

  lemma {:induction false} FieldLengthPrefix(a: string, b: string)
    requires FieldLength(a) < |a| || (b != [] && b[0] == Delim)
    ensures FieldLength(a + b) == FieldLength(a)
    decreases |a|
  {
    if a != [] && a[0] != Delim {
      assert (a + b)[1..] == a[1..] + b;
      FieldLengthPrefix(a[1..], b);
    }
  }

  /** A delimiter ends every token of `a`: the tokens of `a|b` are those of `a` then those of `b`. */
  lemma {:induction false} SplitAtDelim(a: string, b: string)
    ensures Split(a + [Delim] + b) == Split(a) + Split(b)
    decreases |a|
  {
    var s := a + [Delim] + b;
    if a == [] {
      assert s[1..] == b;
    } else if a[0] == Delim {
      assert s[1..] == a[1..] + [Delim] + b;
      SplitAtDelim(a[1..], b);
    } else {
      var n := FieldLength(a);
      FieldLengthPrefix(a, [Delim] + b);
      assert s == a + ([Delim] + b);
      assert s[..n] == a[..n];
      assert s[n..] == a[n..] + [Delim] + b;
      SplitAtDelim(a[n..], b);
    }
  }

  lemma SplitField(f: string)
    requires Delim !in f
    ensures Split(f) == if f == [] then [] else [f]
  {
    if f != [] {
      var n := FieldLength(f);
      assert forall i :: 0 <= i < |f| ==> f[i] != Delim;
      assert f[..n] == f && f[n..] == [];
    }
  }

  /** Splitting a joined field list gives back its non-empty fields. */
  lemma {:induction false} SplitJoin(fields: seq<string>)
    requires forall f <- fields :: Delim !in f
    ensures Split(Join(fields)) == NonEmpty(fields)
    decreases |fields|
  {
    if fields != [] {
      SplitAtDelim(fields[0], Join(fields[1..]));
      SplitField(fields[0]);
      SplitJoin(fields[1..]);
    }
  }

  /** `%02d`: the decimal text of `n`, with a leading zero below ten. */
  function LengthField(n: nat): (s: string)
    ensures AllDigits(s) && 2 <= |s| && DecimalValue(s) == n
    ensures n < 100 <==> |s| == 2
  {
    if n < 10 then
      var s := ['0'] + Decimal(n);
      assert s[..1] == ['0'];
      s
    else Decimal(n)
  }

  /** The content `vsnprintf` leaves in the 1024-byte buffer. */
  function Truncated(content: string): (c: string)
    ensures c <= content && |c| <= MaxContent
    ensures |content| <= MaxContent ==> c == content
  {
    if |content| <= MaxContent then content else content[..MaxContent]
  }

  /**
   * `send_message`: the bytes written for a formatted content. A content
   * under 100 bytes goes out whole behind the five-byte header `0|NN|`,
   * whose two digits read back as its length.
   */
  function Frame(content: string): (bytes: string)
    ensures 5 <= |bytes| && bytes[..2] == "0|"
    ensures |content| < 100 ==>
      |bytes| == |content| + 5 && bytes[4] == Delim && bytes[5..] == content &&
      AllDigits(bytes[2..4]) && DecimalValue(bytes[2..4]) == |content|
  {
    var c := Truncated(content);
    "0|" + LengthField(|c|) + "|" + c
  }

  /** Two leading fields, each closed by a delimiter, come out of `strtok` first. */
  lemma SplitHeader(v: string, len: string, c: string)
    requires IsToken(v) && IsToken(len)
    ensures Split(v + [Delim] + len + [Delim] + c) == [v, len] + Split(c)
  {
    var tail := len + [Delim] + c;
    assert v + [Delim] + len + [Delim] + c == v + [Delim] + tail;
    SplitAtDelim(v, tail);
    SplitAtDelim(len, c);
    SplitField(v);
    SplitField(len);
  }

  /**
   * A receiver that tokenizes a framed message sees the version, the length
   * field, then the content's own tokens; for contents under 100 bytes the
   * length field is two digits that read back as the content's length.
   */
  lemma FrameTokens(content: string)
    requires |content| <= MaxContent
    ensures Split(Frame(content)) == ["0", LengthField(|content|)] + Split(content)
    ensures |content| < 100 ==> |LengthField(|content|)| == 2
    ensures DecimalValue(LengthField(|content|)) == |content|
  {
    var len := LengthField(|content|);
    assert Delim !in len by {
      assert forall i :: 0 <= i < |len| ==> len[i] != Delim;
    }
    assert Frame(content) == "0" + [Delim] + len + [Delim] + content;
    SplitHeader("0", len, content);
  }
}
