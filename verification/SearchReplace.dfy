/** Search and replace from the needles to the output. */
module SearchReplace {
  import opened Options
  import opened SearchText
  import opened SearchGoto
  import opened SearchFailure

  /** Builds the automaton and runs it. The output is that of naive leftmost replacement
      exactly when no zero byte of the input is lost. */
  method BuildAndReplace(needles: seq<Text>, replacements: seq<Text>, src: Text)
    returns (error: Option<BuildError>, crashed: bool, dst: Text)
    requires |needles| <= |replacements|
    ensures error.None? <==> Accepted(needles)
    ensures crashed <==> error.None? && needles == [] && 0 in src
    ensures error.None? && !crashed ==> dst == Written(needles, replacements, [], src)
    ensures error.None? && !crashed ==> (dst == Replaced(needles, replacements, src) <==> Lossless(needles, [], src))
  {
    var s;
    error, s := NewMultiSearchAndReplacer(needles);
    crashed, dst := false, [];
    if error.None? {
      dst, crashed := s.SearchAndReplace(src, replacements);
      WrittenIsReplacedIff(needles, replacements, src);
    }
  }
}
