/** JavaScript strings: sequences of UTF-16 code units. */
module Utf16 {

  type Unit = u: int | 0 <= u < 0x1_0000

  type Text = seq<Unit>

  const LINE_FEED: Unit := 0x0A
  const CARRIAGE_RETURN: Unit := 0x0D
  const SLASH: Unit := 0x2F
  const BACKSLASH: Unit := 0x5C
  const DOT: Unit := 0x2E

  /** The code units String.prototype.trim removes. */
  predicate Whitespace(u: Unit) {
    0x09 <= u <= 0x0D || u == 0x20 || u == 0xA0 || u == 0x1680 || 0x2000 <= u <= 0x200A
    || u == 0x2028 || u == 0x2029 || u == 0x202F || u == 0x205F || u == 0x3000 || u == 0xFEFF
  }

  predicate Blank(t: Text) {
    forall i :: 0 <= i < |t| ==> Whitespace(t[i])
  }

  predicate High(u: Unit) {
    0xD800 <= u <= 0xDBFF
  }

  predicate Low(u: Unit) {
    0xDC00 <= u <= 0xDFFF
  }

  predicate FirstAt(t: Text, u: Unit, i: nat) {
    i < |t| && t[i] == u && forall k :: 0 <= k < i ==> t[k] != u
  }

  lemma {:induction false} FirstExists(t: Text, u: Unit)
    requires u in t
    ensures exists i: nat :: FirstAt(t, u, i)
  {
    if t[0] == u {
      assert FirstAt(t, u, 0);
    } else {
      FirstExists(t[1..], u);
      var i: nat :| FirstAt(t[1..], u, i);
      assert FirstAt(t, u, i + 1);
    }
  }

  /** The index of the first occurrence of a unit, or the length of the text. */
  function IndexOf(t: Text, u: Unit): (i: nat)
    ensures i <= |t|
    ensures if i < |t| then FirstAt(t, u, i) else u !in t
  {
    if u in t then
      FirstExists(t, u);
      var i: nat :| FirstAt(t, u, i); i
    else |t|
  }

  /** The first occurrence in a text that was cut off. */
  lemma IndexOfInPrefix(t: Text, u: Unit, n: nat)
    requires n <= |t|
    ensures IndexOf(t[..n], u) == if IndexOf(t, u) < n then IndexOf(t, u) else n
  {
  }

  function Joined(chunks: seq<Text>): Text {
    if chunks == [] then [] else chunks[0] + Joined(chunks[1..])
  }

  /** The white space of JavaScript, listed. */
  lemma WhitespaceIsListed(u: Unit)
    ensures Whitespace(u)
       <==> u in {0x09, 0x0A, 0x0B, 0x0C, 0x0D, 0x20, 0xA0, 0x1680, 0x2000, 0x2001, 0x2002, 0x2003, 0x2004, 0x2005,
                  0x2006, 0x2007, 0x2008, 0x2009, 0x200A, 0x2028, 0x2029, 0x202F, 0x205F, 0x3000, 0xFEFF}
  {
  }
}
