/** The command lines the builders hand to the launcher (Jenkins' `ArgumentListBuilder`):
    a sequence of tokens, each either shown in the build log as written or masked there
    because it carries a secret. */
module ArgumentList {

  /** One command-line token; a `masked` token is hidden in the build log
      (`ArgumentListBuilder.addMasked`). */
  datatype Arg = Arg(text: string, masked: bool)

  /** A token added with `add`. */
  function Plain(s: string): Arg
  {
    Arg(s, false)
  }

  /** A token added with `addMasked`. */
  function Masked(s: string): Arg
  {
    Arg(s, true)
  }

  /** Tokens added one after the other with `add`, as `add(String...)` and `add(String[])` do. */
  function PlainAll(ss: seq<string>): (r: seq<Arg>)
    ensures |r| == |ss|
    ensures forall i :: 0 <= i < |ss| ==> r[i] == Plain(ss[i])
  {
    if |ss| == 0 then [] else [Plain(ss[0])] + PlainAll(ss[1..])
  }

  /** No token of `args` is masked. */
  predicate NoneMasked(args: seq<Arg>)
  {
    forall i :: 0 <= i < |args| ==> !args[i].masked
  }

  lemma {:induction false} NoneMaskedAppend(a: seq<Arg>, b: seq<Arg>)
    requires NoneMasked(a) && NoneMasked(b)
    ensures NoneMasked(a + b)
  {
    assert forall i :: |a| <= i < |a + b| ==> (a + b)[i] == b[i - |a|];
  }
}
