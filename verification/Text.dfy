/** White space as the two languages of the repository understand it. */
module Text {
  const NEXT_LINE: char := '\U{0085}'

  /** Unicode `White_Space`, as Rust trims it. */
  predicate RustSpace(c: char) {
    '\t' <= c <= '\r' || c == ' ' || c == NEXT_LINE || c == '\U{00A0}' || c == '\U{1680}' ||
    '\U{2000}' <= c <= '\U{200A}' || c == '\U{2028}' || c == '\U{2029}' || c == '\U{202F}' || c == '\U{205F}' ||
    c == '\U{3000}'
  }

  /** `\s` of a JavaScript pattern, and what its `trim` removes: the same but for two characters. */
  predicate JsSpace(c: char) {
    (RustSpace(c) && c != NEXT_LINE) || c == '\U{FEFF}'
  }

  function TrimStart(s: string, space: char -> bool): (r: string)
    ensures r != "" ==> !space(r[0])
  {
    if s != "" && space(s[0]) then TrimStart(s[1..], space) else s
  }

  function TrimEnd(s: string, space: char -> bool): (r: string)
    ensures r <= s
    ensures r != "" ==> !space(r[|r| - 1])
  {
    if s != "" && space(s[|s| - 1]) then TrimEnd(s[..|s| - 1], space) else s
  }

  function Trim(s: string, space: char -> bool): (r: string)
    ensures r != "" ==> !space(r[0]) && !space(r[|r| - 1])
  {
    TrimEnd(TrimStart(s, space), space)
  }

  predicate AllSpace(s: string, space: char -> bool) {
    forall i :: 0 <= i < |s| ==> space(s[i])
  }

  /** Trimming cuts white space off both ends, and no more. */
  lemma TrimCuts(s: string, space: char -> bool) returns (front: string, end: string)
    ensures AllSpace(front, space) && AllSpace(end, space) && s == front + Trim(s, space) + end
  {
    front := StartCut(s, space);
    end := EndCut(TrimStart(s, space), space);
  }

  lemma {:induction false} StartCut(s: string, space: char -> bool) returns (cut: string)
    ensures AllSpace(cut, space) && s == cut + TrimStart(s, space)
  {
    if s != "" && space(s[0]) {
      cut := StartCut(s[1..], space);
      cut := [s[0]] + cut;
    } else {
      cut := "";
    }
  }

  lemma {:induction false} EndCut(s: string, space: char -> bool) returns (cut: string)
    ensures AllSpace(cut, space) && s == TrimEnd(s, space) + cut
  {
    if s != "" && space(s[|s| - 1]) {
      cut := EndCut(s[..|s| - 1], space);
      cut := cut + [s[|s| - 1]];
    } else {
      cut := "";
    }
  }

  /** What stands between white space is what trimming leaves. */
  lemma TrimBetween(front: string, name: string, end: string, space: char -> bool)
    requires AllSpace(front, space) && AllSpace(end, space) && name != ""
    requires !space(name[0]) && !space(name[|name| - 1])
    ensures Trim(front + name + end, space) == name
  {
    StartCutOff(front, name + end, space);
    assert front + (name + end) == front + name + end;
    EndCutOff(name, end, space);
  }

  lemma {:induction false} StartCutOff(front: string, rest: string, space: char -> bool)
    requires AllSpace(front, space) && rest != "" && !space(rest[0])
    ensures TrimStart(front + rest, space) == rest
  {
    if front == "" {
      assert front + rest == rest;
    } else {
      assert (front + rest)[1..] == front[1..] + rest;
      StartCutOff(front[1..], rest, space);
    }
  }

  lemma {:induction false} EndCutOff(rest: string, end: string, space: char -> bool)
    requires AllSpace(end, space) && rest != "" && !space(rest[|rest| - 1])
    ensures TrimEnd(rest + end, space) == rest
  {
    if end == "" {
      assert rest + end == rest;
    } else {
      var n := |end| - 1;
      assert (rest + end)[..|rest + end| - 1] == rest + end[..n];
      EndCutOff(rest, end[..n], space);
    }
  }
}
