/** The pieces of the Java runtime the registry relies on: nullable strings,
    the two different notions of "white space" used by String.isBlank and
    String.trim, String.hashCode with 32-bit wrap-around, and exceptions with
    their cause chains. */
module JavaLang {
  import opened Wrappers

  /** A Java String reference; None stands for null. */
  type JString = Option<string>

  // ---------------------------------------------------------------------
  // White space

  /** Character.isWhitespace: the ASCII controls TAB..CR and FS..US, and the
      Unicode space, line and paragraph separators except the no-break ones
      (U+00A0, U+2007, U+202F). */
  predicate IsWhitespace(c: char)
    ensures IsWhitespace(c) && !IsTrimmable(c) ==> c >= '\U{1680}'
    ensures IsWhitespace(c) ==> c != '\U{A0}' && c != '\U{2007}' && c != '\U{202F}'
  {
    || ('\t' <= c <= '\r')
    || ('\U{1C}' <= c <= ' ')
    || c == '\U{1680}'
    || ('\U{2000}' <= c <= '\U{2006}')
    || ('\U{2008}' <= c <= '\U{200A}')
    || c == '\U{2028}' || c == '\U{2029}'
    || c == '\U{205F}' || c == '\U{3000}'
  }

  /** What String.trim removes: every character at or below U+0020. */
  predicate IsTrimmable(c: char) {
    c <= ' '
  }

  /** String.isBlank: empty, or white space only. */
  predicate IsBlank(s: string)
    ensures s == [] ==> IsBlank(s)
    ensures IsBlank(s) && s != [] ==> IsWhitespace(s[0]) && IsWhitespace(s[|s| - 1])
  {
    forall i :: 0 <= i < |s| ==> IsWhitespace(s[i])
  }

  predicate AllTrimmable(s: string) {
    forall i :: 0 <= i < |s| ==> IsTrimmable(s[i])
  }

  /** Number of trimmable characters at the front of s. */
  function LeadingTrimmable(s: string): (n: nat)
    ensures n <= |s|
    ensures forall i :: 0 <= i < n ==> IsTrimmable(s[i])
    ensures n < |s| ==> !IsTrimmable(s[n])
  {
    if s == [] || !IsTrimmable(s[0]) then 0 else 1 + LeadingTrimmable(s[1..])
  }

  /** Number of trimmable characters at the back of s. */
  function TrailingTrimmable(s: string): (n: nat)
    ensures n <= |s|
    ensures forall i :: |s| - n <= i < |s| ==> IsTrimmable(s[i])
    ensures n < |s| ==> !IsTrimmable(s[|s| - 1 - n])
  {
    if s == [] || !IsTrimmable(s[|s| - 1]) then 0 else 1 + TrailingTrimmable(s[..|s| - 1])
  }

  /** String.trim: drop the trimmable characters at both ends. */
  function Trim(s: string): (r: string)
    ensures |r| <= |s|
    ensures r == [] <==> AllTrimmable(s)
    ensures r != [] ==> !IsTrimmable(r[0]) && !IsTrimmable(r[|r| - 1])
  {
    var st := LeadingTrimmable(s);
    if st == |s| then [] else s[st..|s| - TrailingTrimmable(s)]
  }

  /** Trim is the unique way of writing s as trimmable prefix, a core with
      untrimmable ends (or nothing), and trimmable suffix. */
  lemma TrimUnique(s: string, p: string, m: string, q: string)
    requires s == p + m + q
    requires AllTrimmable(p) && AllTrimmable(q)
    requires m != [] ==> !IsTrimmable(m[0]) && !IsTrimmable(m[|m| - 1])
    ensures Trim(s) == m
  {
    var st := LeadingTrimmable(s);
    if m == [] {
      assert AllTrimmable(s) by {
        forall i | 0 <= i < |s| ensures IsTrimmable(s[i]) {
          if i < |p| { assert s[i] == p[i]; } else { assert s[i] == q[i - |p|]; }
        }
      }
    } else {
      assert s[|p|] == m[0];
      assert st == |p|;
      var tr := TrailingTrimmable(s);
      assert s[|p| + |m| - 1] == m[|m| - 1];
      assert tr == |q|;
      assert s[st..|s| - tr] == m;
    }
  }

  lemma TrimIdempotent(s: string)
    ensures Trim(Trim(s)) == Trim(s)
  {
  }

  /** isBlank and trim disagree both ways: a control character below U+0020
      that is not white space survives isBlank but is removed by trim ... */
  lemma NonBlankCanTrimToEmpty()
    ensures !IsBlank("\U{1}") && Trim("\U{1}") == ""
  {
  }

  /** ... and a Unicode space above U+0020 is blank but survives trim. */
  lemma BlankCanSurviveTrim()
    ensures IsBlank("\U{2003}") && Trim("\U{2003}") == "\U{2003}"
  {
  }

  // ---------------------------------------------------------------------
  // 32-bit int arithmetic and String.hashCode

  predicate IsInt32(x: int) {
    -0x8000_0000 <= x < 0x8000_0000
  }

  /** The Java int that the mathematical integer x wraps around to. */
  function Int32(x: int): (r: int)
    ensures IsInt32(r)
    ensures IsInt32(x) ==> r == x
    ensures (x - r) % 0x1_0000_0000 == 0
  {
    (x + 0x8000_0000) % 0x1_0000_0000 - 0x8000_0000
  }

  /** The UTF-16 code units of one character (Java strings are UTF-16). */
  function CodeUnits(c: char): (u: seq<int>)
    ensures |u| == 1 ==> u[0] == c as int
    ensures |u| == 2 ==> 0xD800 <= u[0] < 0xDC00 && 0xDC00 <= u[1] < 0xE000
    ensures |u| == 1 || |u| == 2
  {
    var cp := c as int;
    if cp < 0x1_0000 then [cp]
    else [0xD800 + (cp - 0x1_0000) / 0x400, 0xDC00 + (cp - 0x1_0000) % 0x400]
  }

  function Utf16(s: string): (u: seq<int>)
    ensures |u| >= |s|
  {
    if s == [] then [] else CodeUnits(s[0]) + Utf16(s[1..])
  }

  /** h = 31 * h + unit over the code units, in int arithmetic. */
  function HashOfUnits(u: seq<int>): (h: int)
    ensures IsInt32(h)
  {
    if u == [] then 0 else Int32(31 * HashOfUnits(u[..|u| - 1]) + u[|u| - 1])
  }

  /** String.hashCode. */
  function StringHashCode(s: string): (h: int)
    ensures IsInt32(h)
  {
    HashOfUnits(Utf16(s))
  }

  // ---------------------------------------------------------------------
  // Exceptions

  /** Exception classes the registry throws or handles; Other stands for any
      further class and records whether it extends IllegalArgumentException. */
  datatype Kind =
    | IllegalArgument
    | PatternSyntax            // java.util.regex.PatternSyntaxException
    | NullPointer
    | MessageNotReadable       // Spring's HttpMessageNotReadableException
    | Other(className: string, extendsIllegalArgument: bool)

  /** `instanceof IllegalArgumentException`: PatternSyntaxException is a
      subclass; NullPointerException and HttpMessageNotReadableException are
      not. */
  predicate InstanceOfIllegalArgument(k: Kind)
    ensures k.PatternSyntax? ==> InstanceOfIllegalArgument(k)
    ensures InstanceOfIllegalArgument(k) ==> !k.NullPointer? && !k.MessageNotReadable?
  {
    match k
    case IllegalArgument => true
    case PatternSyntax => true
    case Other(_, sub) => sub
    case _ => false
  }

  /** A Throwable with getMessage() and getCause(); a cause chain is finite. */
  datatype Throwable = Throwable(kind: Kind, message: JString, cause: Option<Throwable>)

  /** new IllegalArgumentException(message). */
  function IllegalArgumentException(message: string): (t: Throwable)
    ensures InstanceOfIllegalArgument(t.kind) && t.message == Some(message) && t.cause.None?
  {
    Throwable(IllegalArgument, Some(message), None)
  }
}
