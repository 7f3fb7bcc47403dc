/**
What the columns of a restored project's tables accept (src/image23mf/storage/migrations.py:24-150,
226, 482). A value that a column refuses fails the insert, and with it the whole restore.
*/
module Columns {
  import opened Wrappers

  /** Integers are bound as 64-bit values. */
  predicate Storable(x: int) {
    -0x8000_0000_0000_0000 <= x < 0x8000_0000_0000_0000
  }

  const NUL: char := '\0'

  /** `length(trim(name)) > 0`: spaces are trimmed, and a text is as long as it is before a NUL. */
  predicate NameFits(name: string) {
    exists i :: 0 <= i < |name| && name[i] !in {' ', NUL} && forall j :: 0 <= j < i ==> name[j] == ' '
  }

  predicate HexDigit(c: char) {
    '0' <= c <= '9' || 'A' <= c <= 'F' || 'a' <= c <= 'f'
  }

  /** `hex_color GLOB '#[0-9A-Fa-f]*'`: only the first digit is looked at. */
  predicate ColorFits(color: string) {
    |color| >= 2 && color[0] == '#' && HexDigit(color[1])
  }

  /** A width or a height, if there is one. */
  predicate SizeFits(size: Option<int>) {
    size.Some? ==> size.value > 0 && Storable(size.value)
  }

  const IMPORTED: string := " (Imported)"

  /** The suffix of an imported project makes up for a name of spaces, but not for one that starts with a NUL. */
  lemma ImportedNameFitsExactly(name: string)
    ensures NameFits(name + IMPORTED) <==> NameFits(name) || forall i :: 0 <= i < |name| ==> name[i] == ' '
  {
    var longer := name + IMPORTED;
    if forall i :: 0 <= i < |name| ==> name[i] == ' ' {
      assert longer[|name|] == ' ' && longer[|name| + 1] == '(';
      assert forall j :: 0 <= j < |name| + 1 ==> longer[j] == ' ';
    }
    if NameFits(name) {
      var i :| 0 <= i < |name| && name[i] !in {' ', NUL} && forall j :: 0 <= j < i ==> name[j] == ' ';
      assert longer[i] == name[i] && forall j :: 0 <= j < i ==> longer[j] == name[j];
    }
    if NameFits(longer) {
      var i :| 0 <= i < |longer| && longer[i] !in {' ', NUL} && forall j :: 0 <= j < i ==> longer[j] == ' ';
      if i < |name| {
        assert name[i] == longer[i] && forall j :: 0 <= j < i ==> name[j] == longer[j];
      } else {
        assert forall j :: 0 <= j < |name| ==> name[j] == longer[j];
      }
    }
  }
}
