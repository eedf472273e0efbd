/** Back-end configuration: the values read from the environment, with their defaults, and
    the rule that picks the graph-layout settings from the size of the graph. */
module Config {
  import opened Common

  /** The environment variables the configuration reads, already parsed; `None` when unset. */
  datatype Environment = Environment(
    layoutAlgorithm: Option<string>,
    springIterations: Option<int>,
    springK: Option<real>,
    nodeSizeThreshold: Option<int>)

  /** The configuration after defaults are applied. */
  datatype Settings = Settings(
    layoutAlgorithm: string,
    springIterations: int,
    springK: real,
    nodeSizeThreshold: int)

  /** The settings of a layout run. */
  datatype Layout = Layout(algorithm: string, iterations: int, k: real)

  const DefaultAlgorithm := "spring_optimized"
  const DefaultIterations := 50
  const DefaultK := 1.5
  const DefaultThreshold := 5000

  /** The layout for graphs above the size threshold. */
  const FastLayout := Layout("spring_fast", 10, 2.0)

  /** The layout for graphs of more than 1000 nodes that are not above the threshold. */
  const MediumLayout := Layout("spring_optimized", 30, 1.5)

  function OrElse<T>(o: Option<T>, default: T): (v: T)
    ensures o.Some? ==> v == o.value
    ensures o.None? ==> v == default
  {
    if o.Some? then o.value else default
  }

  /** The class attributes: each environment value, or its default when unset. */
  function Load(env: Environment): (s: Settings)
    ensures env == Environment(None, None, None, None) ==>
      s == Settings(DefaultAlgorithm, DefaultIterations, DefaultK, DefaultThreshold)
    ensures env.layoutAlgorithm.Some? ==> s.layoutAlgorithm == env.layoutAlgorithm.value
    ensures env.springIterations.Some? ==> s.springIterations == env.springIterations.value
    ensures env.springK.Some? ==> s.springK == env.springK.value
    ensures env.nodeSizeThreshold.Some? ==> s.nodeSizeThreshold == env.nodeSizeThreshold.value
  {
    Settings(OrElse(env.layoutAlgorithm, DefaultAlgorithm),
             OrElse(env.springIterations, DefaultIterations),
             OrElse(env.springK, DefaultK),
             OrElse(env.nodeSizeThreshold, DefaultThreshold))
  }

  /** `get_layout_settings`: the branches are tried in order, the threshold first. */
  function LayoutSettings(s: Settings, graphSize: int): (l: Layout)
    ensures l == FastLayout || l == MediumLayout ||
            l == Layout(s.layoutAlgorithm, s.springIterations, s.springK)
    ensures graphSize > s.nodeSizeThreshold ==> l == FastLayout
    ensures s.nodeSizeThreshold >= graphSize > 1000 ==> l == MediumLayout
    ensures graphSize <= s.nodeSizeThreshold && graphSize <= 1000 ==>
      l == Layout(s.layoutAlgorithm, s.springIterations, s.springK)
  {
    if graphSize > s.nodeSizeThreshold then FastLayout
    else if graphSize > 1000 then MediumLayout
    else Layout(s.layoutAlgorithm, s.springIterations, s.springK)
  }

  /** The threshold test decides first: a threshold of 1000 or less sends every graph of
      more than 1000 nodes to the fast layout, and the middle branch is never reached. */
  lemma ThresholdDecidesFirst(s: Settings, graphSize: int)
    requires s.nodeSizeThreshold <= 1000 && graphSize > 1000
    ensures LayoutSettings(s, graphSize) == FastLayout
  {
  }

  /** With nothing set in the environment, a larger graph never gets more layout
      iterations: 50 up to 1000 nodes, 30 up to 5000, 10 beyond. */
  lemma DefaultIterationsFallWithSize(small: int, large: int)
    requires small <= large
    ensures var s := Load(Environment(None, None, None, None));
      LayoutSettings(s, large).iterations <= LayoutSettings(s, small).iterations
    ensures var s := Load(Environment(None, None, None, None));
      LayoutSettings(s, small).iterations ==
        (if small > 5000 then 10 else if small > 1000 then 30 else 50)
  {
  }
}
