/**
 * The history window shared by every memory variant: the guarded slice
 * `conversation if len(conversation) < memory_size else conversation[-memory_size:]`,
 * and the `"\n".join(f"> {i}" ...)` rendering of string histories.
 */
module History {
  import opened Text

  function Min(a: int, b: int): int { if a < b then a else b }

  /** Python's normalisation of a slice start `k` on a list of length `len`. */
  function SliceStart(len: nat, k: int): (r: nat)
    ensures r <= len
  {
    if k < 0 then (if len + k < 0 then 0 else len + k)
    else if k > len then len
    else k
  }

  /** `xs if len(xs) < size else xs[-size:]`. */
  function Window<T>(xs: seq<T>, size: int): (w: seq<T>)
    ensures |w| <= |xs| && w == xs[|xs| - |w|..]
    ensures size >= 1 ==> |w| == Min(|xs|, size)
    ensures size == 0 ==> w == xs
    ensures size < 0 ==> |w| == |xs| - Min(-size, |xs|)
  {
    if |xs| < size then xs else xs[SliceStart(|xs|, -size)..]
  }

  /** Each entry prefixed with `"> "`. */
  function Quoted(xs: seq<string>): (q: seq<string>)
    ensures |q| == |xs|
    ensures forall i :: 0 <= i < |xs| ==> q[i] == "> " + xs[i]
  {
    seq(|xs|, i requires 0 <= i < |xs| => "> " + xs[i])
  }

  /**
   * The rendered history: one `"> "` line per entry, joined by newlines. It is empty
   * exactly when there is no entry, and otherwise opens with the first entry's line.
   */
  function Render(xs: seq<string>): (r: string)
    ensures r == "" <==> xs == []
    ensures xs != [] ==> StartsWith(r, "> " + xs[0])
  {
    if xs != [] then
      JoinFirst(Quoted(xs), "\n");
      assert Quoted(xs)[0] == "> " + xs[0];
      Join(Quoted(xs), "\n")
    else
      Join(Quoted(xs), "\n")
  }

  /**
   * Rendering is reversible: when no entry holds a newline, splitting the rendered
   * text at newlines gives back exactly the quoted entries, in order.
   */
  lemma RenderLines(xs: seq<string>)
    requires |xs| >= 1
    requires forall i :: 0 <= i < |xs| ==> '\n' !in xs[i]
    ensures Split(Render(xs), "\n") == Quoted(xs)
  {
    var q := Quoted(xs);
    forall k | 0 <= k < |q| ensures '\n' !in q[k] {
      assert q[k] == "> " + xs[k];
    }
    JoinSplit(q, "\n");
  }

  lemma RenderEmpty()
    ensures Render([]) == ""
  {
  }
}
