/**
 * Processing chains of the first transport generation: a
 * `ChainProcessor` turns an input into a result, given the shared
 * transport context it may update; `link` joins two processors into one
 * that runs the first and feeds its output to the second.
 *
 * A processor is modelled as a function from the context and the input to
 * the context after it and the result. `C` is the context.
 */
module Pipeline {
  import opened Bytes

  /** A boxed `ChainProcessor<Input = A, Output = B>`. */
  datatype Processor<!C, !A, B> = Processor(run: (C, A) -> (C, Result<B>))

  /** `ProcessChainLink<A, M, B>`: the linkage (A to M) and the function (M to B). */
  datatype ChainLink<!C, !A, !M, B> = ChainLink(linkage: Processor<C, A, M>, stage: Processor<C, M, B>)

  /** `link(linkage, function)`. */
  function Link<C, A, M, B>(linkage: Processor<C, A, M>, stage: Processor<C, M, B>): ChainLink<C, A, M, B>
  {
    ChainLink(linkage, stage)
  }

  /** `ProcessChainLink::into_outer`. */
  function IntoOuter<C, A, M, B>(l: ChainLink<C, A, M, B>): (Processor<C, A, M>, Processor<C, M, B>)
  {
    (l.linkage, l.stage)
  }

  /**
   * `ProcessChainLink::process`: the linkage runs on the input; its error
   * is returned as it is (`?`), otherwise its output and the context it
   * left go to the function.
   */
  function Process<C, A, M, B>(l: ChainLink<C, A, M, B>, context: C, input: A): (C, Result<B>)
  {
    var (c, m) := l.linkage.run(context, input);
    if m.Err? then (c, Err(m.error)) else l.stage.run(c, m.value)
  }

  /** `Box::new(link)`: a chain is itself a processor. */
  function Boxed<C, A, M, B>(l: ChainLink<C, A, M, B>): Processor<C, A, B>
  {
    Processor((context, input) => Process(l, context, input))
  }

  /** `link!(a, b, c)`: nested to the right, `link(a, link(b, c))`. */
  function Link3<C, A, M, N, B>(a: Processor<C, A, M>, b: Processor<C, M, N>, c: Processor<C, N, B>)
    : ChainLink<C, A, M, B>
  {
    Link(a, Boxed(Link(b, c)))
  }

  // ---------------------------------------------------------------
  // Properties
  // ---------------------------------------------------------------

  /** `into_outer` gives back the two processors `link` was given. */
  lemma IntoOuterLink<C, A, M, B>(linkage: Processor<C, A, M>, stage: Processor<C, M, B>)
    ensures IntoOuter(Link(linkage, stage)) == (linkage, stage)
  {
  }

  /**
   * When the first processor fails, the chain fails with its error and
   * the context it left, whatever the second processor is: the second
   * is not run.
   */
  lemma ErrorSkipsSecond<C, A, M, B>(a: Processor<C, A, M>, f: Processor<C, M, B>, g: Processor<C, M, B>,
                                     context: C, input: A)
    requires a.run(context, input).1.Err?
    ensures Process(Link(a, f), context, input) == Process(Link(a, g), context, input)
    ensures Process(Link(a, f), context, input)
            == (a.run(context, input).0, Err(a.run(context, input).1.error))
  {
  }

  /**
   * When the first processor succeeds, the chain is the second processor
   * run on its output, with the context it left.
   */
  lemma Sequenced<C, A, M, B>(a: Processor<C, A, M>, f: Processor<C, M, B>, context: C, input: A)
    requires a.run(context, input).1.Ok?
    ensures var (c, m) := a.run(context, input);
            Process(Link(a, f), context, input) == f.run(c, m.value)
  {
  }

  /**
   * `link!` nests to the right; nesting to the left gives the same
   * processor, input by input and context by context.
   */
  lemma LinkAssociative<C, A, M, N, B>(a: Processor<C, A, M>, b: Processor<C, M, N>, c: Processor<C, N, B>,
                                       context: C, input: A)
    ensures Process(Link3(a, b, c), context, input) == Process(Link(Boxed(Link(a, b)), c), context, input)
  {
    var (c1, m) := a.run(context, input);
    if m.Ok? {
      var (c2, n) := b.run(c1, m.value);
      assert Boxed(Link(b, c)).run(c1, m.value) == Process(Link(b, c), c1, m.value);
      assert Boxed(Link(a, b)).run(context, input) == (c2, n);
    } else {
      assert Boxed(Link(a, b)).run(context, input) == (c1, Err(m.error));
    }
  }
}
