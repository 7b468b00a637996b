/** The frame arithmetic of src/remotion/compositions/DataVisualization.tsx:
    the bar chart, whose bars grow in turn to heights proportional to the
    largest value, and the growth indicators, which slide in one after
    another with an arrow and colour telling rising from falling. */
module DataVisualizationComposition {
  import opened Wrappers
  import opened AnimationHooks
  import Remotion

  /** One entry of the `data` prop. */
  datatype DataPoint = DataPoint(name: string, value: real, growth: real)

  /** `Math.max(...data.map(d => d.value))` for non-empty data. */
  function MaxValue(data: seq<DataPoint>): (m: real)
    requires |data| > 0
    ensures forall i :: 0 <= i < |data| ==> data[i].value <= m
    ensures exists i :: 0 <= i < |data| && data[i].value == m
  {
    if |data| == 1 then data[0].value
    else
      var rest := MaxValue(data[1..]);
      assert forall i :: 1 <= i < |data| ==> data[i] == data[1..][i - 1];
      if data[0].value >= rest then data[0].value else rest
  }

  /** The frames between the starts of neighbouring bars, and the length of
      each bar's animation. */
  const BarDelay: int := 20
  const BarDuration: int := 60

  /** The progress above which a bar shows its value on top. */
  const LabelThreshold: real := 0.8

  /** `(value / maxValue) * 100`: the bar's full height, in percent of the
      chart. A bar holding the largest positive value fills the chart, a
      smaller positive one fills it in proportion, a non-positive one gets
      no height. */
  function BarHeight(value: real, maxValue: real): (h: real)
    requires maxValue != 0.0
    ensures 0.0 < maxValue && 0.0 < value <= maxValue ==> 0.0 < h <= 100.0
    ensures 0.0 < maxValue ==> (h == 100.0 <==> value == maxValue)
    ensures 0.0 < maxValue && value <= 0.0 ==> h <= 0.0
    ensures 0.0 < maxValue && 0.0 <= value ==> 0.0 <= h
  {
    var q := value / maxValue;
    assert q * maxValue == value;
    if 0.0 < maxValue then
      Remotion.DivVersusOne(value, maxValue);
      Remotion.DivSign(value, maxValue);
      q * 100.0
    else q * 100.0
  }

  /** Full heights are in proportion to the values: the ratio of height to
      value is the same for every bar, and a larger value never gets a
      shorter bar. */
  lemma BarHeightProportion(v1: real, v2: real, maxValue: real)
    requires maxValue > 0.0
    ensures BarHeight(v1, maxValue) * maxValue == v1 * 100.0
    ensures v1 <= v2 ==> BarHeight(v1, maxValue) <= BarHeight(v2, maxValue)
  {
    var q1, q2 := v1 / maxValue, v2 / maxValue;
    assert q1 * maxValue == v1;
    if v1 <= v2 {
      Remotion.FractionMonotone(v1, v2, maxValue);
    }
  }

  /** `progress * barHeight`: the part of its full height a bar has grown to. */
  function Grown(progress: real, barHeight: real): (h: real)
    ensures progress == 0.0 ==> h == 0.0
    ensures progress == 1.0 ==> h == barHeight
    ensures 0.0 <= progress <= 1.0 && 0.0 <= barHeight ==> 0.0 <= h <= barHeight
  {
    if 0.0 <= progress <= 1.0 && 0.0 <= barHeight then
      assert progress * barHeight <= 1.0 * barHeight;
      progress * barHeight
    else progress * barHeight
  }

  /** One bar: its name, its height at this frame (percent of the chart),
      and the value label drawn on top once the bar is over 80% grown. */
  datatype BarView = BarView(name: string, height: real, valueLabel: Option<real>)

  /** Bar `index`, whose animation starts at `barStart`. */
  function BarAt(frame: int, item: DataPoint, barStart: int, maxValue: real): (bar: BarView)
    requires maxValue != 0.0
    ensures bar.name == item.name
    ensures bar.height == Grown(AnimationSequence(frame, barStart, BarDuration).progress, BarHeight(item.value, maxValue))
    ensures frame <= barStart ==> bar.height == 0.0
    ensures frame >= barStart + BarDuration ==> bar.height == BarHeight(item.value, maxValue)
    ensures BarHeight(item.value, maxValue) >= 0.0 ==> 0.0 <= bar.height <= BarHeight(item.value, maxValue)
    ensures bar.valueLabel.Some? <==> AnimationSequence(frame, barStart, BarDuration).progress > LabelThreshold
    ensures bar.valueLabel.Some? ==> bar.valueLabel.value == item.value && frame > barStart
    ensures frame >= barStart + BarDuration ==> bar.valueLabel == Some(item.value)
  {
    var animation := AnimationSequence(frame, barStart, BarDuration);
    var barHeight := BarHeight(item.value, maxValue);
    BarView(item.name, Grown(animation.progress, barHeight),
            if animation.progress > LabelThreshold then Some(item.value) else None)
  }

  /** `AnimatedBarChart` at `frame`: bar `i` grows for 60 frames from
      `start + 20 i` to its full height. The source divides by the largest
      value, so it must not be zero. */
  function AnimatedBarChart(frame: int, data: seq<DataPoint>, start: int): (bars: seq<BarView>)
    requires |data| > 0 ==> MaxValue(data) != 0.0
    ensures |bars| == |data|
    ensures forall i :: 0 <= i < |bars| ==> bars[i] == BarAt(frame, data[i], start + i * BarDelay, MaxValue(data))
  {
    if |data| == 0 then []
    else
      var maxValue := MaxValue(data);
      seq(|data|, i requires 0 <= i < |data| => BarAt(frame, data[i], start + i * BarDelay, maxValue))
  }

  /** Once every bar has finished growing, the bar of a largest positive
      value fills the chart and every bar of a positive value stands in
      proportion to it, at most as tall. */
  lemma {:induction false} ChartSettled(frame: int, data: seq<DataPoint>, start: int, i: nat)
    requires |data| > 0 && MaxValue(data) > 0.0 && i < |data|
    requires frame >= start + (|data| - 1) * BarDelay + BarDuration
    ensures var bar := AnimatedBarChart(frame, data, start)[i];
      && bar.height == BarHeight(data[i].value, MaxValue(data))
      && (bar.height == 100.0 <==> data[i].value == MaxValue(data))
      && (data[i].value > 0.0 ==> 0.0 < bar.height <= 100.0)
      && bar.valueLabel == Some(data[i].value)
  {
    var maxValue := MaxValue(data);
    var barStart := start + i * BarDelay;
    MulMonotone(i, |data| - 1, BarDelay);
    var bar := AnimatedBarChart(frame, data, start)[i];
    assert bar == BarAt(frame, data[i], barStart, maxValue);
  }

  /** Bars only grow: a later frame never shows a shorter bar of a
      non-negative value, nor hides a value label it showed. */
  lemma {:induction false} BarMonotone(f1: int, f2: int, item: DataPoint, barStart: int, maxValue: real)
    requires maxValue > 0.0 && f1 <= f2 && item.value >= 0.0
    ensures BarAt(f1, item, barStart, maxValue).height <= BarAt(f2, item, barStart, maxValue).height
    ensures BarAt(f1, item, barStart, maxValue).valueLabel.Some? ==> BarAt(f2, item, barStart, maxValue).valueLabel.Some?
  {
    var p1, p2 := AnimationSequence(f1, barStart, BarDuration).progress, AnimationSequence(f2, barStart, BarDuration).progress;
    var h := BarHeight(item.value, maxValue);
    AnimationMonotone(f1, f2, barStart, BarDuration);
    assert p1 <= p2;
    GrownMonotone(p1, p2, h);
    assert BarAt(f1, item, barStart, maxValue).height == Grown(p1, h);
    assert BarAt(f2, item, barStart, maxValue).height == Grown(p2, h);
  }

  lemma GrownMonotone(p: real, q: real, h: real)
    requires p <= q && 0.0 <= h
    ensures Grown(p, h) <= Grown(q, h)
  {
    assert Grown(p, h) == p * h && Grown(q, h) == q * h;
    assert (q - p) * h >= 0.0;
    assert q * h - p * h == (q - p) * h;
  }

  /** The frames between the starts of neighbouring indicators, and the
      length of each indicator's animation. */
  const IndicatorDelay: int := 30
  const IndicatorDuration: int := 60

  const RisingIcon: string := "\U{2197}"
  const FallingIcon: string := "\U{2198}"
  const RisingColor: string := "#00ff88"
  const FallingColor: string := "#ff6b6b"

  /** One growth indicator: the name, its fade and slide, the arrow, the
      colour of arrow and figure, and the figure `Math.abs(growth)` shown
      before the '%' sign. */
  datatype IndicatorView = IndicatorView(
    name: string,
    opacity: real,
    translateX: real,
    icon: string,
    color: string,
    magnitude: real)

  /** Indicator for `item`, whose animation starts at `indicatorStart`. */
  function IndicatorAt(frame: int, item: DataPoint, indicatorStart: int): (view: IndicatorView)
    ensures view.name == item.name
    ensures view.opacity == AnimationSequence(frame, indicatorStart, IndicatorDuration).opacity
    ensures view.translateX == AnimationSequence(frame, indicatorStart, IndicatorDuration).translateX
    ensures view.icon == RisingIcon <==> item.growth > 0.0
    ensures view.icon == FallingIcon <==> item.growth <= 0.0
    ensures view.color == RisingColor <==> item.growth > 0.0
    ensures view.color == FallingColor <==> item.growth <= 0.0
    ensures view.magnitude >= 0.0
    ensures view.magnitude == item.growth || view.magnitude == -item.growth
  {
    var animation := AnimationSequence(frame, indicatorStart, IndicatorDuration);
    var isPositive := item.growth > 0.0;
    IndicatorView(
      item.name,
      animation.opacity,
      animation.translateX,
      if isPositive then RisingIcon else FallingIcon,
      if isPositive then RisingColor else FallingColor,
      if item.growth < 0.0 then -item.growth else item.growth)
  }

  /** `GrowthIndicators` at `frame`: indicator `i` fades and slides in for 60
      frames from `start + 30 i`. */
  function GrowthIndicators(frame: int, data: seq<DataPoint>, start: int): (views: seq<IndicatorView>)
    ensures |views| == |data|
    ensures forall i :: 0 <= i < |views| ==> views[i] == IndicatorAt(frame, data[i], start + i * IndicatorDelay)
  {
    seq(|data|, i requires 0 <= i < |data| => IndicatorAt(frame, data[i], start + i * IndicatorDelay))
  }

  /** The arrow and the unsigned figure together give back the signed growth. */
  lemma {:induction false} GrowthRecovered(frame: int, data: seq<DataPoint>, start: int, i: nat)
    requires i < |data|
    ensures var view := GrowthIndicators(frame, data, start)[i];
      data[i].growth == if view.icon == RisingIcon then view.magnitude else -view.magnitude
  {
    var view := GrowthIndicators(frame, data, start)[i];
    assert view == IndicatorAt(frame, data[i], start + i * IndicatorDelay);
    assert RisingIcon != FallingIcon;
  }

  /** Indicators enter in order: with the 30-frame stagger an earlier
      indicator is never less visible than a later one. */
  lemma {:induction false} IndicatorOrder(frame: int, data: seq<DataPoint>, start: int, i: nat, j: nat)
    requires i <= j < |data|
    ensures GrowthIndicators(frame, data, start)[j].opacity <= GrowthIndicators(frame, data, start)[i].opacity
  {
    var si, sj := start + i * IndicatorDelay, start + j * IndicatorDelay;
    MulMonotone(i, j, IndicatorDelay);
    ProgressLaterStart(frame, si, sj, IndicatorDuration, Remotion.CubicOut);
    OpacityMonotone(Progress(frame, sj, IndicatorDuration, Remotion.CubicOut),
                    Progress(frame, si, IndicatorDuration, Remotion.CubicOut));
  }
}
