/** The string helpers of the `simple-tool/common` package that the converter
    calls (`c.LowerCaseFirst`, `c.UpperCaseFirst`) and its own
    `isUpperCaseFirst`. Their bodies are not part of this model; they are given
    here the ASCII meaning their names promise. */
module Common {

  datatype Option<T> = None | Some(value: T)

  predicate IsUpper(ch: char) { 'A' <= ch <= 'Z' }

  predicate IsLower(ch: char) { 'a' <= ch <= 'z' }

  /** True when the first character of `s` is an upper-case letter. */
  predicate IsUpperCaseFirst(s: string) { |s| > 0 && IsUpper(s[0]) }

  /** `s` with its first character lower-cased; every other character is kept. */
  function LowerCaseFirst(s: string): (r: string)
    ensures |r| == |s|
    ensures |s| > 0 ==> r[1..] == s[1..] && !IsUpper(r[0])
  {
    if IsUpperCaseFirst(s) then [(s[0] as int + 32) as char] + s[1..] else s
  }

  /** `s` with its first character upper-cased; every other character is kept. */
  function UpperCaseFirst(s: string): (r: string)
    ensures |r| == |s|
    ensures |s| > 0 ==> r[1..] == s[1..] && !IsLower(r[0])
  {
    if |s| > 0 && IsLower(s[0]) then [(s[0] as int - 32) as char] + s[1..] else s
  }

  /** Lower-casing the first letter changes a key exactly when that letter is
      upper-case, which is when the converter records the original key. */
  lemma LowerCaseFirstChangesIffUpper(s: string)
    ensures LowerCaseFirst(s) != s <==> IsUpperCaseFirst(s)
  {
    if IsUpperCaseFirst(s) {
      assert LowerCaseFirst(s)[0] != s[0];
    }
  }

  /** Upper-casing after lower-casing gives the same class name as upper-casing
      the original key. */
  lemma UpperOfLower(s: string)
    ensures UpperCaseFirst(LowerCaseFirst(s)) == UpperCaseFirst(s)
  {
  }
}
