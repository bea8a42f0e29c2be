// Page names: ContainerPage::isValidName and the trimming that renamePage applies
// (src/core/containerpage.cpp).

module Names {

  // QChar::isSpace over the Basic Multilingual Plane.
  predicate IsSpace(c: char) {
    var u := c as int;
    || 0x09 <= u <= 0x0D || u == 0x20 || u == 0x85 || u == 0xA0 || u == 0x1680
    || 0x2000 <= u <= 0x200A || u == 0x2028 || u == 0x2029 || u == 0x202F || u == 0x205F || u == 0x3000
  }

  // QChar::Other_Control.
  predicate IsControl(c: char) {
    var u := c as int;
    u <= 0x1F || 0x7F <= u <= 0x9F
  }

  // QChar::Other_Format over the Basic Multilingual Plane. A code point beyond it reaches the
  // source as two surrogates, which belong to neither rejected category.
  predicate IsFormat(c: char) {
    var u := c as int;
    || u == 0xAD || 0x600 <= u <= 0x605 || u == 0x61C || u == 0x6DD || u == 0x70F
    || 0x890 <= u <= 0x891 || u == 0x8E2 || u == 0x180E || 0x200B <= u <= 0x200F
    || 0x202A <= u <= 0x202E || 0x2060 <= u <= 0x2064 || 0x2066 <= u <= 0x206F
    || u == 0xFEFF || 0xFFF9 <= u <= 0xFFFB
  }

  // QString::size(): UTF-16 code units.
  function Size(s: string): nat {
    if s == [] then 0 else (if s[0] as int >= 0x1_0000 then 2 else 1) + Size(s[1..])
  }

  function Trimmed(s: string): (r: string)
    ensures |r| <= |s|
  {
    if s != [] && IsSpace(s[0]) then Trimmed(s[1..])
    else if s != [] && IsSpace(s[|s| - 1]) then Trimmed(s[..|s| - 1])
    else s
  }

  predicate ValidName(name: string) {
    && Size(name) <= 255
    && name == Trimmed(name)
    && forall i :: 0 <= i < |name| ==> !IsControl(name[i]) && !IsFormat(name[i])
  }

  // Trimming reaches a fixed point, so a renamed page always meets the trimming rule.
  lemma {:induction false} TrimmedTwice(s: string)
    ensures Trimmed(Trimmed(s)) == Trimmed(s)
    decreases |s|
  {
    if s != [] && IsSpace(s[0]) {
      TrimmedTwice(s[1..]);
    } else if s != [] && IsSpace(s[|s| - 1]) {
      TrimmedTwice(s[..|s| - 1]);
    }
  }

  // Trimming takes spaces off both ends until none is left there, and nothing else.
  lemma {:induction false} TrimmedMeaning(s: string) returns (i: nat, j: nat)
    ensures i <= j <= |s| && Trimmed(s) == s[i..j]
    ensures forall k :: (0 <= k < i || j <= k < |s|) ==> IsSpace(s[k])
    ensures i < j ==> !IsSpace(s[i]) && !IsSpace(s[j - 1])
    decreases |s|
  {
    hide IsSpace;
    if s != [] && IsSpace(s[0]) {
      i, j := TrimmedMeaning(s[1..]);
      assert s[1..][i..j] == s[i + 1..j + 1];
      i, j := i + 1, j + 1;
    } else if s != [] && IsSpace(s[|s| - 1]) {
      i, j := TrimmedMeaning(s[..|s| - 1]);
    } else {
      i, j := 0, |s|;
    }
  }

  // A name is valid if it fits, neither begins nor ends with a space, and has no control or format
  // characters.
  lemma ValidNameMeaning(name: string)
    ensures ValidName(name) <==>
      && Size(name) <= 255 && (name == "" || (!IsSpace(name[0]) && !IsSpace(name[|name| - 1])))
      && forall c :: c in name ==> !IsControl(c) && !IsFormat(c)
  {
    var i, j := TrimmedMeaning(name);
    hide IsSpace, IsControl, IsFormat, Trimmed;
    assert name != "" && !IsSpace(name[0]) ==> i == 0;
    assert name != "" && !IsSpace(name[|name| - 1]) ==> j == |name|;
    assert name[0..|name|] == name;
  }
}
