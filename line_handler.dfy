/** The POST /line handler from the parsed request body up to the hand-off to the chart:
    validation, series extraction and both axis ranges. */
module LineHandler {
  import opened JsonValues
  import opened Validation
  import opened Extraction
  import opened Ranges

  /** What the handler passes on to the chart: the X bounds, the synthesized X points,
      the caption map and the Y bounds. */
  datatype Plan = Plan(
    xStart: real, xEnd: real, xRange: seq<real>,
    series: map<string, Series>, yStart: real, yEnd: real)

  /** A reply carrying a diagnostic message, or a plan for the chart. */
  datatype Reply = Diagnosed(message: string) | Plotted(plan: Plan)

  /** What the plan for an accepted request holds. */
  ghost predicate PlanFor(req: Request, plan: Plan)
  {
    && plan.xStart == req.xStart && plan.xEnd == req.xEnd
    && |plan.xRange| == XRangeLength(req.xStart, req.xEnd)
    && (forall i :: 0 <= i < |plan.xRange| ==> plan.xRange[i] == req.xStart + i as real)
    && plan.series == CaptionMap(Flatten(req.points))
    && var all := AllYPoints(plan.series);
    && (|all| > 1 ==>
          && plan.yStart in all && plan.yEnd in all
          && forall v :: v in all ==> plan.yStart <= v <= plan.yEnd)
    && (|all| <= 1 ==> plan.yStart == 0.0 && plan.yEnd == 0.0)
  }

  /** The body of the POST /line lambda, after the request body has been parsed. */
  method HandleLine(doc: Option<Json>) returns (reply: Reply)
    ensures Validate(doc).Rejected? ==> reply == Diagnosed(Message(Validate(doc).diagnostic))
    ensures Validate(doc).Accepted? ==> reply.Plotted? && PlanFor(Validate(doc).request, reply.plan)
    ensures reply.Plotted? ==> reply.plan.yStart <= reply.plan.yEnd
    ensures reply.Plotted? ==> forall k :: k in reply.plan.series ==> k != ""
    ensures OuterGatesPass(doc) && !doc.value.members["Points"].elems[0].JArr? ==>
      reply.Plotted? && reply.plan.series == map[] && reply.plan.yStart == reply.plan.yEnd == 0.0
  {
    var verdict := Validate(doc);
    match verdict
    case Rejected(d) =>
      reply := Diagnosed(Message(d));
    case Accepted(req) =>
      var objs := CollectObjects(req.points);
      var captionToPoints := BuildCaptionMap(objs);
      var xRange := SynthesizeXRange(req.xStart, req.xEnd);
      var yStart := YStart(captionToPoints);
      var yEnd := YEnd(captionToPoints);
      ExtractedCaptions(doc);
      AcceptedShape(doc);
      if !req.points[0].JArr? {
        assert req.points == [req.points[0]];
        FlattenSingle(req.points[0]);
        NoSeriesNoYPoints();
      }
      reply := Plotted(Plan(req.xStart, req.xEnd, xRange, captionToPoints, yStart, yEnd));
  }
}
