/** How the storage adapter tells reads from writes: the statement text is
    trimmed, upper-cased and tested for the prefix `SELECT`. */
module SqlText {

  /** The characters `String.prototype.trim` removes: ECMAScript WhiteSpace and LineTerminator
      (tab, line feed, vertical tab, form feed, carriage return, space, no-break space, the Unicode
      space separators, line and paragraph separator, and the byte order mark). */
  predicate IsSpace(c: char)
  {
    if c < '\U{00A0}' then c == ' ' || '\t' <= c <= '\r'
    else
      || c == '\U{00A0}' || c == '\U{1680}' || '\U{2000}' <= c <= '\U{200A}'
      || c == '\U{2028}' || c == '\U{2029}' || c == '\U{202F}' || c == '\U{205F}'
      || c == '\U{3000}' || c == '\U{FEFF}'
  }

  predicate AllSpace(s: string)
  {
    forall i :: 0 <= i < |s| ==> IsSpace(s[i])
  }

  /** Number of white-space characters at the front of `s`. */
  function LeadingSpace(s: string): (k: nat)
    ensures k <= |s| && AllSpace(s[..k])
    ensures k == |s| || !IsSpace(s[k])
  {
    if |s| > 0 && IsSpace(s[0]) then
      var k := 1 + LeadingSpace(s[1..]);
      assert forall i :: 1 <= i < k ==> s[..k][i] == s[1..][..k - 1][i - 1];
      k
    else 0
  }

  /** Number of white-space characters at the back of `s`. */
  function TrailingSpace(s: string): (k: nat)
    ensures k <= |s| && AllSpace(s[|s| - k..])
    ensures k == |s| || !IsSpace(s[|s| - k - 1])
  {
    if |s| > 0 && IsSpace(s[|s| - 1]) then
      var t := s[..|s| - 1];
      var k := 1 + TrailingSpace(t);
      var back, backOfT := s[|s| - k..], t[|t| - (k - 1)..];
      assert forall i :: 0 <= i < k - 1 ==> back[i] == backOfT[i];
      k
    else 0
  }

  /** `s.trim()` */
  function Trim(s: string): (r: string)
    ensures r == [] || (!IsSpace(r[0]) && !IsSpace(r[|r| - 1]))
  {
    var t := s[LeadingSpace(s)..];
    t[..|t| - TrailingSpace(t)]
  }

  /** Upper-casing of one character: the ASCII letters, and the two other letters whose upper case is an
      ASCII letter, dotless i and long s. */
  function Upper(c: char): char
  {
    if 'a' <= c <= 'z' then (c as int - 32) as char
    else if c == '\U{0131}' then 'I'
    else if c == '\U{017F}' then 'S'
    else c
  }

  /** `s.toUpperCase()` */
  function ToUpper(s: string): (r: string)
    ensures |r| == |s|
  {
    seq(|s|, i requires 0 <= i < |s| => Upper(s[i]))
  }

  /** `s.startsWith(p)` */
  predicate StartsWith(s: string, p: string)
  {
    |p| <= |s| && s[..|p|] == p
  }

  /** The dispatch test of the adapter: true sends the statement down the read path. */
  predicate IsRead(sql: string)
  {
    StartsWith(ToUpper(Trim(sql)), "SELECT")
  }

  /** `Trim` keeps a contiguous middle part of its input and drops only white space around it. */
  lemma TrimSplits(s: string)
    ensures exists i, j :: 0 <= i <= j <= |s| && Trim(s) == s[i..j] && AllSpace(s[..i]) && AllSpace(s[j..])
  {
    var i := LeadingSpace(s);
    var t := s[i..];
    var k := TrailingSpace(t);
    var j := i + (|t| - k);
    assert Trim(s) == s[i..j];
    assert s[j..] == t[|t| - k..];
    assert AllSpace(s[..i]) && AllSpace(s[j..]);
  }

  /** `'ſelect'.toUpperCase()` is `'SELECT'`: a statement may open with a long s and still be a read. */
  lemma LongSReads()
    ensures IsRead("\U{017F}elect 1")
  {
    var t := "\U{017F}elect 1";
    assert !IsSpace(t[0]) && !IsSpace(t[|t| - 1]);
    assert Trim(t) == t;
    assert ToUpper(t)[..6] == "SELECT";
  }

  /** Leading white space never changes the dispatch decision. */
  lemma {:induction false} IsReadIgnoresLeadingSpace(ws: string, sql: string)
    requires AllSpace(ws)
    ensures IsRead(ws + sql) == IsRead(sql)
  {
    TrimIgnoresLeadingSpace(ws, sql);
  }

  lemma TrimIgnoresLeadingSpace(ws: string, sql: string)
    requires AllSpace(ws)
    ensures Trim(ws + sql) == Trim(sql)
  {
    var k := LeadingSpace(sql);
    LeadingSpaceOfPrefix(ws, sql);
    assert (ws + sql)[|ws| + k..] == sql[k..];
  }

  lemma {:induction false} LeadingSpaceOfPrefix(ws: string, sql: string)
    requires AllSpace(ws)
    ensures LeadingSpace(ws + sql) == |ws| + LeadingSpace(sql)
    decreases |ws|
  {
    if ws != [] {
      assert (ws + sql)[0] == ws[0] && (ws + sql)[1..] == ws[1..] + sql;
      LeadingSpaceOfPrefix(ws[1..], sql);
    } else {
      assert ws + sql == sql;
    }
  }

  /** Upper-case ASCII letters only. */
  predicate Capitals(w: string)
  {
    forall i :: 0 <= i < |w| ==> 'A' <= w[i] <= 'Z'
  }

  /** Indentation, then a six-letter capital keyword: the text is a read exactly when the keyword is SELECT. */
  lemma LeadingWord(ws: string, w: string, rest: string)
    requires AllSpace(ws) && |w| == 6 && Capitals(w)
    ensures IsRead(ws + w + rest) <==> w == "SELECT"
  {
    var sql := ws + w + rest;
    var k := |ws|;
    assert forall i :: 0 <= i < k ==> sql[i] == ws[i];
    assert forall i :: k <= i < k + 6 ==> sql[i] == w[i - k];
    assert sql[k..k + 6] == w;
    OpensWith(sql, k);
  }

  /** A text opening with `k` white-space characters and then six capital letters is a read exactly when
      those letters spell SELECT. */
  lemma OpensWith(sql: string, k: nat)
    requires |sql| >= k + 6
    requires forall i :: 0 <= i < k ==> IsSpace(sql[i])
    requires forall i :: k <= i < k + 6 ==> 'A' <= sql[i] <= 'Z'
    ensures IsRead(sql) <==> sql[k..k + 6] == "SELECT"
  {
    LeadingSpaceIs(sql, k);
    var t := sql[k..];
    var j := TrailingSpace(t);
    forall i | |t| - j <= i < |t| ensures IsSpace(t[i]) {
      assert t[i] == t[|t| - j..][i - (|t| - j)];
    }
    assert !IsSpace(t[5]);
    assert Trim(sql)[..6] == t[..6] == sql[k..k + 6];
    assert ToUpper(Trim(sql))[..6] == ToUpper(sql[k..k + 6]) == sql[k..k + 6];
  }

  lemma {:induction false} LeadingSpaceIs(sql: string, k: nat)
    requires k < |sql| && !IsSpace(sql[k])
    requires forall i :: 0 <= i < k ==> IsSpace(sql[i])
    ensures LeadingSpace(sql) == k
    decreases k
  {
    if k > 0 {
      assert IsSpace(sql[0]);
      LeadingSpaceIs(sql[1..], k - 1);
    }
  }
}
