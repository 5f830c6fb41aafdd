// The two helpers of lib/utils.php: the identifier check used before a
// name is spliced into SQL, and the rendering of a column list.
module PhpUtils {
  import opened Wrappers

  /** PCRE's \w without the /u flag: ASCII letters, digits and '_'. */
  predicate IsWordChar(c: char)
  {
    'a' <= c <= 'z' || 'A' <= c <= 'Z' || '0' <= c <= '9' || c == '_'
  }

  predicate AllWord(s: string)
  {
    forall k :: 0 <= k < |s| ==> IsWordChar(s[k])
  }

  /**
   * verify_name: the string matches /^\w+$/. PCRE's `$` also matches just
   * before a final newline, so one trailing "\n" is accepted.
   */
  function VerifyName(s: string): (ok: bool)
    ensures ok ==> s != [] && IsWordChar(s[0])
    ensures ok ==> forall k :: 0 <= k < |s| - 1 ==> IsWordChar(s[k])
    ensures ok ==> '`' !in s && ' ' !in s
  {
    var body := if s != [] && s[|s| - 1] == '\n' then s[..|s| - 1] else s;
    body != [] && AllWord(body)
  }

  /** Exactly the non-empty word strings, with or without one final newline, pass. */
  lemma VerifyNameIff(s: string)
    ensures VerifyName(s) <==>
      (s != [] && AllWord(s)) || (|s| >= 2 && s[|s| - 1] == '\n' && AllWord(s[..|s| - 1]))
  {
    if s != [] && AllWord(s) {
      assert IsWordChar(s[|s| - 1]);
    }
  }

  /** A word followed by one newline passes, so the check does not exclude "\n". */
  lemma VerifyNameTrailingNewline(w: string)
    requires w != [] && AllWord(w)
    ensures VerifyName(w + "\n")
    ensures !VerifyName(w + "\n\n")
  {
    assert (w + "\n")[..|w|] == w;
    var t := w + "\n\n";
    assert t[..|t| - 1] == w + "\n";
    assert !IsWordChar(t[|t| - 2]);
  }

  function Backticked(x: string): string
  {
    "`" + x + "`"
  }

  /** The elements, each in backticks, joined with ", ". */
  function QuotedList(arr: seq<string>): string
  {
    if |arr| == 0 then ""
    else if |arr| == 1 then Backticked(arr[0])
    else Backticked(arr[0]) + ", " + QuotedList(arr[1..])
  }

  /** array_to_sql_value: ['*'] alone stays `*`, anything else is quoted. */
  function ArrayToSqlValue(arr: seq<string>): (r: string)
    ensures arr == ["*"] <==> r == "*"
    ensures arr == [] <==> r == ""
  {
    if arr == ["*"] then "*" else QuotedList(arr)
  }

  // An independent reading of the rendered list, to show that the rendering
  // loses nothing when no element contains a backtick.

  /** The prefix of `s` before the first `c` (all of `s` when there is none). */
  function TakeUntil(s: string, c: char): (p: string)
    ensures |p| <= |s| && p == s[..|p|] && c !in p
    ensures |p| < |s| ==> s[|p|] == c
  {
    if s == [] || s[0] == c then [] else [s[0]] + TakeUntil(s[1..], c)
  }

  lemma {:induction false} TakeUntilOf(x: string, c: char, rest: string)
    requires c !in x
    ensures TakeUntil(x + [c] + rest, c) == x
  {
    if x != [] {
      assert (x + [c] + rest)[1..] == x[1..] + [c] + rest;
      TakeUntilOf(x[1..], c, rest);
    }
  }

  /** Reads "`a`, `b`, ..." back into its names. */
  function ParseNames(s: string): Option<seq<string>>
    decreases |s|
  {
    if |s| < 2 || s[0] != '`' then None
    else
      var name := TakeUntil(s[1..], '`');
      var after := |name| + 2;
      if after > |s| then None
      else if after == |s| then Some([name])
      else if after + 2 <= |s| && s[after..after + 2] == ", " then
        match ParseNames(s[after + 2..])
        case Some(rest) => Some([name] + rest)
        case None => None
      else None
  }

  /** Reads a rendered column list back. */
  function FromSqlValue(s: string): Option<seq<string>>
  {
    if s == "*" then Some(["*"]) else if s == "" then Some([]) else ParseNames(s)
  }

  predicate NoBacktick(arr: seq<string>)
  {
    forall i :: 0 <= i < |arr| ==> '`' !in arr[i]
  }

  /** One backticked name alone reads back as that name. */
  lemma ParseOneName(x: string)
    requires '`' !in x
    ensures ParseNames(Backticked(x)) == Some([x])
  {
    var s := Backticked(x);
    assert s[1..] == x + ['`'] + [];
    TakeUntilOf(x, '`', []);
  }

  /** A backticked name, ", " and more: the name, then what the rest reads as. */
  lemma ParseNameThen(x: string, r: string)
    requires '`' !in x
    ensures ParseNames(Backticked(x) + ", " + r) ==
      match ParseNames(r)
      case Some(ns) => Some([x] + ns)
      case None => None
  {
    var s := Backticked(x) + ", " + r;
    assert s[1..] == x + ['`'] + (", " + r);
    TakeUntilOf(x, '`', ", " + r);
    var after := |x| + 2;
    assert s[after..after + 2] == ", ";
    assert s[after + 2..] == r;
  }

  lemma {:induction false} ParseQuotedList(arr: seq<string>)
    requires |arr| >= 1 && NoBacktick(arr)
    ensures ParseNames(QuotedList(arr)) == Some(arr)
  {
    var x := arr[0];
    assert '`' !in x;
    if |arr| == 1 {
      ParseOneName(x);
      assert arr == [x];
    } else {
      ParseQuotedList(arr[1..]);
      ParseNameThen(x, QuotedList(arr[1..]));
      assert [x] + arr[1..] == arr;
    }
  }

  /** Rendering a list of backtick-free names and reading it back gives the list. */
  lemma SqlValueRoundTrip(arr: seq<string>)
    requires NoBacktick(arr)
    ensures FromSqlValue(ArrayToSqlValue(arr)) == Some(arr)
  {
    if arr != ["*"] && arr != [] {
      ParseQuotedList(arr);
      var s := QuotedList(arr);
      assert s[0] == '`';
    }
  }
}
