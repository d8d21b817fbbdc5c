// The string helpers of the Go standard library that the model needs.
module Text {

  // unicode.IsSpace.
  predicate IsSpace(c: char) {
    var n := c as int;
    || 0x09 <= n <= 0x0D || n == 0x20 || n == 0x85 || n == 0xA0 || n == 0x1680
    || 0x2000 <= n <= 0x200A || n == 0x2028 || n == 0x2029 || n == 0x202F || n == 0x205F || n == 0x3000
  }

  lemma AsciiSpaces(c: char)
    requires c as int < 0x80
    ensures IsSpace(c) <==> c == ' ' || '\t' <= c <= '\r'
  {
  }

  // No white space at either end.
  predicate Trimmed(s: string) {
    s == "" || (!IsSpace(s[0]) && !IsSpace(s[|s| - 1]))
  }

  function TrimLeft(s: string): (r: string)
    ensures r != "" ==> s != "" && !IsSpace(r[0]) && r[|r| - 1] == s[|s| - 1]
    ensures s != "" && !IsSpace(s[0]) ==> r == s
  {
    if s != "" && IsSpace(s[0]) then TrimLeft(s[1..]) else s
  }

  function TrimRight(s: string): (r: string)
    ensures r <= s
    ensures r != "" ==> !IsSpace(r[|r| - 1])
    ensures s != "" && !IsSpace(s[|s| - 1]) ==> r == s
  {
    if s != "" && IsSpace(s[|s| - 1]) then TrimRight(s[..|s| - 1]) else s
  }

  // strings.TrimSpace.
  function TrimSpace(s: string): (r: string)
    ensures Trimmed(r)
    ensures Trimmed(s) ==> r == s
  {
    TrimRight(TrimLeft(s))
  }

  predicate IsBlank(s: string) {
    forall i :: 0 <= i < |s| ==> IsSpace(s[i])
  }

  lemma {:induction false} TrimLeftCuts(s: string) returns (cut: string)
    ensures s == cut + TrimLeft(s) && IsBlank(cut)
  {
    if s != "" && IsSpace(s[0]) {
      var rest := TrimLeftCuts(s[1..]);
      cut := [s[0]] + rest;
    } else {
      cut := "";
    }
  }

  lemma {:induction false} TrimRightCuts(s: string) returns (cut: string)
    ensures s == TrimRight(s) + cut && IsBlank(cut)
  {
    if s != "" && IsSpace(s[|s| - 1]) {
      var rest := TrimRightCuts(s[..|s| - 1]);
      cut := rest + [s[|s| - 1]];
    } else {
      cut := "";
    }
  }

  // Trimming cuts white space off both ends, and nothing else.
  lemma TrimSpaceCuts(s: string) returns (before: string, after: string)
    ensures s == before + TrimSpace(s) + after && IsBlank(before) && IsBlank(after)
    ensures Trimmed(TrimSpace(s))
  {
    before := TrimLeftCuts(s);
    after := TrimRightCuts(TrimLeft(s));
  }

  // So what is left is empty exactly when there was nothing but white space.
  lemma TrimsToNothing(s: string)
    ensures TrimSpace(s) == "" <==> IsBlank(s)
  {
    var before, after := TrimSpaceCuts(s);
    if TrimSpace(s) != "" {
      assert s[|before|] == TrimSpace(s)[0];
    }
  }

  // strings.ToLower on the letters of ASCII.
  function ToLower(s: string): (r: string)
    ensures |r| == |s|
  {
    seq(|s|, i requires 0 <= i < |s| => if 'A' <= s[i] <= 'Z' then (s[i] as int + 32) as char else s[i])
  }

  lemma LowersEachLetter(s: string)
    ensures forall i :: 0 <= i < |s| ==>
              ToLower(s)[i] == if 'A' <= s[i] <= 'Z' then (s[i] as int + 32) as char else s[i]
  {
  }

  // The same letter, whatever its case.
  predicate SameLetter(a: char, b: char) {
    || a == b
    || ('A' <= a <= 'Z' && b as int == a as int + 32)
    || ('A' <= b <= 'Z' && a as int == b as int + 32)
  }

  predicate SameText(s: string, t: string) {
    |s| == |t| && forall i :: 0 <= i < |s| ==> SameLetter(s[i], t[i])
  }

  lemma LowerTells(s: string, t: string)
    ensures ToLower(s) == ToLower(t) <==> SameText(s, t)
  {
    LowersEachLetter(s);
    LowersEachLetter(t);
    if ToLower(s) == ToLower(t) {
      forall i | 0 <= i < |s|
        ensures SameLetter(s[i], t[i])
      {
        assert ToLower(s)[i] == ToLower(t)[i];
      }
    }
    if SameText(s, t) {
      forall i | 0 <= i < |s|
        ensures ToLower(s)[i] == ToLower(t)[i]
      {
        assert SameLetter(s[i], t[i]);
      }
    }
  }

  // Trimming and folding twice is trimming and folding once.
  lemma FoldsOnce(s: string)
    ensures ToLower(TrimSpace(ToLower(TrimSpace(s)))) == ToLower(TrimSpace(s))
  {
    var trimmed := TrimSpace(s);
    var lower := ToLower(trimmed);
    LowersEachLetter(trimmed);
    LowersEachLetter(lower);
    assert Trimmed(lower) by {
      if lower != "" {
        assert lower[0] == trimmed[0] || !IsSpace(lower[0]);
        assert lower[|lower| - 1] == trimmed[|lower| - 1] || !IsSpace(lower[|lower| - 1]);
      }
    }
    assert ToLower(lower) == lower;
  }

  predicate IsBase64Url(c: char) {
    'A' <= c <= 'Z' || 'a' <= c <= 'z' || '0' <= c <= '9' || c == '-' || c == '_'
  }

  // What randomID returns: the prefix, an underscore and 16 random bytes in unpadded
  // URL-safe base 64.
  predicate IsRandomID(prefix: string, id: string) {
    && |id| == |prefix| + 23
    && prefix + "_" <= id
    && forall i :: |prefix| <= i < |id| ==> IsBase64Url(id[i])
  }

  lemma RandomIDIsTrimmed(prefix: string, id: string)
    requires IsRandomID(prefix, id)
    requires prefix != "" && !IsSpace(prefix[0])
    ensures Trimmed(id) && id != "" && TrimSpace(id) == id
  {
    assert (prefix + "_")[0] == prefix[0];
    assert id[0] == prefix[0];
    assert IsBase64Url(id[|id| - 1]);
  }
}
