/** The trimming that private questions, private answers and contacts go through. */
module Text {

  /** The characters str.strip removes: the Unicode white space. */
  predicate IsSpace(c: char) {
    || '\t' <= c <= '\r' || '\U{001C}' <= c <= ' ' || c == '\U{0085}' || c == '\U{00A0}' || c == '\U{1680}'
    || '\U{2000}' <= c <= '\U{200A}' || c == '\U{2028}' || c == '\U{2029}'
    || c == '\U{202F}' || c == '\U{205F}' || c == '\U{3000}'
  }

  /** The first position at or after `i` that does not hold a space. */
  function Start(s: string, i: nat): (r: nat)
    requires i <= |s|
    ensures i <= r <= |s|
    ensures forall j | i <= j < r :: IsSpace(s[j])
    ensures r < |s| ==> !IsSpace(s[r])
    decreases |s| - i
  {
    if i < |s| && IsSpace(s[i]) then Start(s, i + 1) else i
  }

  /** The end of the text up to `i` without its trailing spaces. */
  function End(s: string, i: nat): (r: nat)
    requires i <= |s|
    ensures r <= i
    ensures forall j | r <= j < i :: IsSpace(s[j])
    ensures r > 0 ==> !IsSpace(s[r - 1])
  {
    if i > 0 && IsSpace(s[i - 1]) then End(s, i - 1) else i
  }

  function Strip(s: string): (r: string)
    ensures r == "" <==> forall c | c in s :: IsSpace(c)
    ensures r != "" ==> !IsSpace(r[0]) && !IsSpace(r[|r| - 1])
    ensures r != "" ==> exists i, j ::
      && 0 <= i < j <= |s| && r == s[i..j]
      && (forall k | 0 <= k < |s| && !(i <= k < j) :: IsSpace(s[k]))
  {
    var i := Start(s, 0);
    if i == |s| then "" else
      var j := End(s, |s|);
      assert s[i] in s;
      s[i..j]
  }
}
