/** ASCII text helpers: case folding and substring search. */
module Text {

  function LowerChar(c: char): char {
    if 'A' <= c <= 'Z' then (c as int + 32) as char else c
  }

  function ToLower(s: string): (r: string)
    ensures |r| == |s|
    ensures forall i :: 0 <= i < |s| ==> r[i] == LowerChar(s[i])
  {
    seq(|s|, i requires 0 <= i < |s| => LowerChar(s[i]))
  }

  lemma ToLowerTwice(s: string)
    ensures ToLower(ToLower(s)) == ToLower(s)
  {
  }

  predicate Contains(s: string, sub: string) {
    exists i {:trigger s[i..]} :: 0 <= i <= |s| && sub <= s[i..]
  }

  /** `sub` stands somewhere in `s`. */
  ghost predicate HasPart(s: string, sub: string) {
    exists a, b :: s == a + sub + b
  }

  lemma ContainsIff(s: string, sub: string)
    ensures Contains(s, sub) <==> HasPart(s, sub)
  {
    if Contains(s, sub) {
      var i :| 0 <= i <= |s| && sub <= s[i..];
      assert s == s[..i] + sub + s[i + |sub|..];
    }
    if HasPart(s, sub) {
      var a, b :| s == a + sub + b;
      assert s[|a|..] == sub + b;
    }
  }
}
