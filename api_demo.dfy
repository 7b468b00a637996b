/** The frame arithmetic of src/remotion/compositions/APIDemo.tsx: the
    schedule that gives each endpoint its own sequence and row, the clamped
    reveal of each endpoint's response, and the colour of its method badge. */
module APIDemoComposition {
  import opened Wrappers
  import opened Remotion
  import opened AnimationHooks

  /** The HTTP methods an endpoint may carry. */
  datatype Method = GET | POST | PUT | DELETE

  /** `methodColors[method]`: the badge colour of each method. */
  function MethodColor(m: Method): (color: string)
    ensures |color| == 7 && color[0] == '#'
  {
    match m
    case GET => "#00ff88"
    case POST => "#ffd700"
    case PUT => "#ff6b6b"
    case DELETE => "#ff4757"
  }

  /** Every method has its own colour, so the badge tells them apart. */
  lemma MethodColorsDistinct(m1: Method, m2: Method)
    ensures MethodColor(m1) == MethodColor(m2) <==> m1 == m2
  {
    if m1 != m2 {
      assert MethodColor(m1)[1..3] != MethodColor(m2)[1..3] || MethodColor(m1)[3..5] != MethodColor(m2)[3..5]
          || MethodColor(m1)[5..] != MethodColor(m2)[5..];
    }
  }

  /** One endpoint as drawn; its `response` is shown only through
      `JSON.stringify`, which is not part of this model. */
  datatype Endpoint = Endpoint(httpMethod: Method, path: string, description: string)

  /** The schedule constants: the first endpoint's sequence starts at frame
      120, each further one 180 frames later, each is mounted for 150 frames;
      row `i` sits at 10% from the left and `30 + 35 i` percent from the top. */
  const FirstFrom: int := 120
  const Spacing: int := 180
  const SlotDuration: int := 150
  const Left: int := 10
  const FirstTop: int := 30
  const RowHeight: int := 35

  /** The length of each endpoint demo's own animation window. */
  const DemoDuration: int := 150

  /** Where and when endpoint `i` is drawn: the `from` and
      `durationInFrames` of its `Sequence`, the `start` passed to the demo,
      and its position. */
  datatype Slot = Slot(from: int, durationInFrames: int, start: int, x: int, y: int)

  function EndpointSlot(index: nat): (slot: Slot)
    ensures slot.from == slot.start == FirstFrom + Spacing * index
    ensures slot.durationInFrames == SlotDuration
    ensures slot.x == Left && slot.y == FirstTop + RowHeight * index
  {
    var from := FirstFrom + Spacing * index;
    Slot(from, SlotDuration, from, Left, FirstTop + RowHeight * index)
  }

  /** A `Sequence` mounts its children for the frames
      `[from, from + durationInFrames)`. */
  predicate Shows(slot: Slot, frame: int)
  {
    slot.from <= frame < slot.from + slot.durationInFrames
  }

  /** The endpoint `Sequence` windows follow one another with 30 idle frames
      between them, so no two are ever mounted together, and each row lies
      below the one before. (Which frames of its animation a mounted demo
      shows depends on the frame the host hands it; see `APIDemo`.) */
  lemma {:induction false} SlotsDisjoint(i: nat, j: nat, frame: int)
    requires i < j
    ensures EndpointSlot(i).from + EndpointSlot(i).durationInFrames + 30 <= EndpointSlot(j).from
    ensures !(Shows(EndpointSlot(i), frame) && Shows(EndpointSlot(j), frame))
    ensures EndpointSlot(i).y < EndpointSlot(j).y
  {
    assert Spacing * j >= Spacing * (i + 1);
  }

  /** `interpolate(frame - start, [30, 90], [0, 1], clamp both ends)`:
      the response fades in over the 60 frames from 30 frames after `start`. */
  function RequestAnimation(frame: int, start: int): (r: real)
    ensures r == Clamp01(((frame - start) as real - 30.0) / 60.0)
    ensures 0.0 <= r <= 1.0
    ensures r == 0.0 <==> frame - start <= 30
    ensures r == 1.0 <==> frame - start >= 90
  {
    var x := (frame - start) as real;
    ClampedUnit(x, 30.0, 90.0, Linear);
    RequestEdges(frame - start);
    Interpolate(x, [30.0, 90.0], [0.0, 1.0], Options(Linear, Clamp, Clamp))
  }

  lemma RequestEdges(d: int)
    ensures Clamp01((d as real - 30.0) / 60.0) == 0.0 <==> d <= 30
    ensures Clamp01((d as real - 30.0) / 60.0) == 1.0 <==> d >= 90
  {
    DivSign(d as real - 30.0, 60.0);
    DivVersusOne(d as real - 30.0, 60.0);
  }

  /** The response only ever fades in. */
  lemma {:induction false} RequestMonotone(f1: int, f2: int, start: int)
    requires f1 <= f2
    ensures RequestAnimation(f1, start) <= RequestAnimation(f2, start)
  {
    FractionMonotone((f1 - start) as real - 30.0, (f2 - start) as real - 30.0, 60.0);
  }

  /** The response panel: its opacity and its downward offset in pixels. */
  datatype ResponseView = ResponseView(opacity: real, offsetY: real)

  /** What the demo of one endpoint draws: the method badge and its colour,
      the path and description, the container's fade and slide, and the
      response panel once the request animation has begun. */
  datatype EndpointView = EndpointView(
    httpMethod: Method,
    badgeColor: string,
    path: string,
    description: string,
    opacity: real,
    translateX: real,
    response: Option<ResponseView>)

  /** `APIEndpointDemo` at `frame`, with its 150-frame animation. */
  function EndpointDemo(frame: int, endpoint: Endpoint, start: int): (view: EndpointView)
    ensures view.httpMethod == endpoint.httpMethod && view.badgeColor == MethodColor(endpoint.httpMethod)
    ensures view.path == endpoint.path && view.description == endpoint.description
    ensures view.opacity == AnimationSequence(frame, start, DemoDuration).opacity
    ensures view.translateX == AnimationSequence(frame, start, DemoDuration).translateX
    ensures view.response.Some? <==> frame - start > 30
    ensures view.response.Some? ==> view.response.value.opacity == RequestAnimation(frame, start)
    ensures view.response.Some? ==> 0.0 <= view.response.value.offsetY < 20.0
    ensures view.response.Some? ==> (view.response.value.offsetY == 0.0 <==> frame - start >= 90)
  {
    var animation := AnimationSequence(frame, start, DemoDuration);
    var requestAnimation := RequestAnimation(frame, start);
    EndpointView(
      endpoint.httpMethod,
      MethodColor(endpoint.httpMethod),
      endpoint.path,
      endpoint.description,
      animation.opacity,
      animation.translateX,
      if requestAnimation > 0.0 then Some(ResponseView(requestAnimation, (1.0 - requestAnimation) * 20.0)) else None)
  }

  /** The response panel only moves up and only brightens as the frame
      advances, and once shown it stays. */
  lemma {:induction false} ResponseMonotone(f1: int, f2: int, endpoint: Endpoint, start: int)
    requires f1 <= f2 && EndpointDemo(f1, endpoint, start).response.Some?
    ensures EndpointDemo(f2, endpoint, start).response.Some?
    ensures EndpointDemo(f1, endpoint, start).response.value.opacity
         <= EndpointDemo(f2, endpoint, start).response.value.opacity
    ensures EndpointDemo(f2, endpoint, start).response.value.offsetY
         <= EndpointDemo(f1, endpoint, start).response.value.offsetY
  {
    RequestMonotone(f1, f2, start);
  }

  /** The endpoints of `APIDemo`, each with its slot and the view its demo
      computes when handed `frame`. `frame` is the frame the demo itself
      reads; the host counts it from the slot's `from` inside the slot's
      `Sequence`, while the demo also subtracts `start == from`, so what the
      rendered video shows is the view at `frame - from`, not at the
      composition's frame. */
  function APIDemo(frame: int, endpoints: seq<Endpoint>): (views: seq<(Slot, EndpointView)>)
    ensures |views| == |endpoints|
    ensures forall i :: 0 <= i < |views| ==> views[i].0 == EndpointSlot(i)
    ensures forall i :: 0 <= i < |views| ==> views[i].1 == EndpointDemo(frame, endpoints[i], EndpointSlot(i).start)
  {
    seq(|endpoints|, i requires 0 <= i < |endpoints| =>
      var slot := EndpointSlot(i);
      (slot, EndpointDemo(frame, endpoints[i], slot.start)))
  }
}
