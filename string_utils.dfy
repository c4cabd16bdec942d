/** StringUtils.RemoveAllWhitespace: the input's characters with every
    whitespace character dropped, copied through a char buffer. */
module StringUtils {
  import opened Wrappers
  import Seqs

  /** char.IsWhiteSpace: the space, line and paragraph separators of
      Unicode (categories Zs, Zl and Zp) together with U+0009 .. U+000D and
      U+0085. */
  predicate IsWhiteSpace(c: char)
  {
    var n := c as int;
    (0x09 <= n <= 0x0D) || n == 0x20 || n == 0x85 || n == 0xA0 || n == 0x1680 ||
    (0x2000 <= n <= 0x200A) || n == 0x2028 || n == 0x2029 || n == 0x202F ||
    n == 0x205F || n == 0x3000
  }

  /** The buffer's admission test. */
  function NotWhiteSpace(): char -> bool
  {
    c => !IsWhiteSpace(c)
  }

  /** What RemoveAllWhitespace returns: null stays null, otherwise the
      non-whitespace characters in their original order. */
  function Stripped(input: Option<string>): (r: Option<string>)
    ensures input.None? <==> r.None?
    ensures input.Some? ==> |r.value| <= |input.value|
    ensures input.Some? ==> forall c :: c in r.value ==> c in input.value && !IsWhiteSpace(c)
  {
    match input
    case None => None
    case Some(s) => Some(Seqs.Filter(s, NotWhiteSpace()))
  }

  /** Exactly the non-whitespace characters of the input survive. */
  lemma StrippedMembers(s: string, c: char)
    ensures c in Stripped(Some(s)).value <==> c in s && !IsWhiteSpace(c)
  {
    Seqs.FilterMembership(s, NotWhiteSpace(), c);
  }

  /** The length is kept exactly when the input holds no whitespace, and
      then the string comes back unchanged. */
  lemma StrippedLength(s: string)
    ensures |Stripped(Some(s)).value| == |s| <==> forall c :: c in s ==> !IsWhiteSpace(c)
    ensures (forall c :: c in s ==> !IsWhiteSpace(c)) ==> Stripped(Some(s)) == Some(s)
  {
    Seqs.FilterKeepsAll(s, NotWhiteSpace());
  }

  /** Removing whitespace twice is the same as removing it once. */
  lemma StrippedIdempotent(input: Option<string>)
    ensures Stripped(Stripped(input)) == Stripped(input)
  {
    if input.Some? {
      Seqs.FilterIdempotent(input.value, NotWhiteSpace());
    }
  }

  /** RemoveAllWhitespace: null or empty input is returned as it is;
      otherwise each non-whitespace character is written at the running
      index of a buffer as long as the input, and the filled prefix is
      returned. */
  method RemoveAllWhitespace(input: Option<string>) returns (r: Option<string>)
    ensures r == Stripped(input)
  {
    if input.None? || |input.value| == 0 {
      return input;
    }
    var s := input.value;
    var buffer := new char[|s|];
    var idx := 0;
    for i := 0 to |s|
      invariant idx <= i
      invariant buffer[..idx] == Seqs.Filter(s[..i], NotWhiteSpace())
    {
      var c := s[i];
      assert s[..i + 1] == s[..i] + [c];
      Seqs.FilterAppend(s[..i], [c], NotWhiteSpace());
      assert [c][1..] == [];
      if !IsWhiteSpace(c) {
        buffer[idx] := c;
        idx := idx + 1;
      }
    }
    assert s[..|s|] == s;
    return Some(buffer[..idx]);
  }
}
