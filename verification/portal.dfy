/** The portal client (src/portal.rs): `parse_page` over an abstract document
    tree, the shapes of the three requests, and the client operations with
    the HTTP transport passed in as a function. */
module Portal {
  import opened Wrappers

  // ---------------------------------------------------------------------
  // The parsed page

  /** An attribute as written in the page; `value` is None for a bare
      attribute such as `<input disabled>`. */
  datatype Attribute = Attribute(key: string, value: Option<string>)

  /** A node of the parsed page. Tag names and attribute values are kept as
      written, so `TD` and `td` are different tags. */
  datatype Node =
    | Element(tag: string, attributes: seq<Attribute>, children: seq<Node>)
    | Text(text: string)
    | Comment(text: string)

  /** What one page says about the session. */
  datatype CaptchaState = CaptchaState(captchaPresent: bool, sessionId: string, message: Option<string>)

  datatype PortalError =
    | SessionIdNotFound       // "PHPSESSID not found"
    | Transport(reason: string)

  /** `k` is the position of the first attribute named `key`. */
  predicate FirstKeyAt(attributes: seq<Attribute>, key: string, k: int)
  {
    0 <= k < |attributes| && attributes[k].key == key && forall j :: 0 <= j < k ==> attributes[j].key != key
  }

  /** `attributes().get(key)`: None when the tag has no such attribute,
      Some(None) when it has one without a value; otherwise the value of the
      first attribute with that name. */
  function AttributeValue(attributes: seq<Attribute>, key: string): (r: Option<Option<string>>)
    ensures r.None? <==> forall k :: 0 <= k < |attributes| ==> attributes[k].key != key
    ensures r.Some? ==> exists k :: FirstKeyAt(attributes, key, k) && r.value == attributes[k].value
  {
    if attributes == [] then None
    else if attributes[0].key == key then
      assert FirstKeyAt(attributes, key, 0);
      Some(attributes[0].value)
    else
      var rest := attributes[1..];
      var r := AttributeValue(rest, key);
      if r.Some? then
        var k :| FirstKeyAt(rest, key, k) && r.value == rest[k].value;
        assert FirstKeyAt(attributes, key, k + 1) by {
          forall j | 0 <= j < k + 1 ensures attributes[j].key != key {
            if j > 0 {
              assert attributes[j] == rest[j - 1];
            }
          }
        }
        r
      else r
  }

  predicate HasAttribute(n: Node, key: string, value: string)
  {
    n.Element? && AttributeValue(n.attributes, key) == Some(Some(value))
  }

  /** `n` followed by its descendants, in document order. */
  function Subtree(n: Node): (nodes: seq<Node>)
    ensures nodes != [] && nodes[0] == n
  {
    [n] + (if n.Element? then Forest(n.children) else [])
  }

  /** Every node of a sequence of sibling trees, in document order: the
      order in which `tl` stores and queries them. */
  function Forest(ns: seq<Node>): seq<Node>
  {
    if ns == [] then [] else Subtree(ns[0]) + Forest(ns[1..])
  }

  // ---------------------------------------------------------------------
  // Selectors

  /** `input[name=PHPSESSID]` */
  predicate IsSessionInput(n: Node)
  {
    n.Element? && n.tag == "input" && HasAttribute(n, "name", "PHPSESSID")
  }

  /** `get_element_by_id("captcha")` */
  predicate IsCaptchaBox(n: Node)
  {
    HasAttribute(n, "id", "captcha")
  }

  /** `TD[align=center]` */
  predicate IsMessageCell(n: Node)
  {
    n.Element? && n.tag == "TD" && HasAttribute(n, "align", "center")
  }

  /** A tag whose `name()` is "DIV". */
  predicate IsDiv(n: Node)
  {
    n.Element? && n.tag == "DIV"
  }

  predicate FirstWhere(nodes: seq<Node>, i: int, p: Node -> bool)
  {
    0 <= i < |nodes| && p(nodes[i]) && forall j :: 0 <= j < i ==> !p(nodes[j])
  }

  /** The position of the first node that `p` selects (`.next()` on a query). */
  function FindFirst(nodes: seq<Node>, p: Node -> bool): (r: Option<nat>)
    ensures r.Some? ==> FirstWhere(nodes, r.value, p)
    ensures r.None? ==> forall j :: 0 <= j < |nodes| ==> !p(nodes[j])
  {
    if nodes == [] then None
    else if p(nodes[0]) then Some(0)
    else match FindFirst(nodes[1..], p)
      case None => None
      case Some(i) => Some(i + 1)
  }

  /** The nodes that `p` selects, in order. */
  function Select(nodes: seq<Node>, p: Node -> bool): (selected: seq<Node>)
    ensures forall n :: n in selected <==> n in nodes && p(n)
  {
    if nodes == [] then []
    else (if p(nodes[0]) then [nodes[0]] else []) + Select(nodes[1..], p)
  }

  /** The descendants of every given cell, cell after cell: the
      `children()` / `all()` chain of `parse_page`. */
  function CellDescendants(cells: seq<Node>): (nodes: seq<Node>)
    ensures forall d :: d in nodes <==> exists c :: c in cells && c.Element? && d in Forest(c.children)
  {
    if cells == [] then []
    else (if cells[0].Element? then Forest(cells[0].children) else []) + CellDescendants(cells[1..])
  }

  /** Selection keeps document order: selecting from two runs one after
      the other is selecting from each and concatenating the results. */
  lemma {:induction false} SelectAppend(front: seq<Node>, back: seq<Node>, p: Node -> bool)
    ensures Select(front + back, p) == Select(front, p) + Select(back, p)
  {
    if front == [] {
      assert front + back == back;
    } else {
      var head := if p(front[0]) then [front[0]] else [];
      SelectAppend(front[1..], back, p);
      TailOfConcat(front, back);
      assert Select(front + back, p) == head + Select(front[1..] + back, p);
      assert Select(front, p) == head + Select(front[1..], p);
      ConcatAssociative(head, Select(front[1..], p), Select(back, p));
    }
  }

  /** The candidates come cell after cell: the descendants of two runs of
      cells are the descendants of the first run followed by those of the
      second. */
  lemma {:induction false} CellDescendantsAppend(front: seq<Node>, back: seq<Node>)
    ensures CellDescendants(front + back) == CellDescendants(front) + CellDescendants(back)
  {
    if front == [] {
      assert front + back == back;
    } else {
      var head := if front[0].Element? then Forest(front[0].children) else [];
      CellDescendantsAppend(front[1..], back);
      TailOfConcat(front, back);
      assert CellDescendants(front + back) == head + CellDescendants(front[1..] + back);
      assert CellDescendants(front) == head + CellDescendants(front[1..]);
      ConcatAssociative(head, CellDescendants(front[1..]), CellDescendants(back));
    }
  }

  // ---------------------------------------------------------------------
  // Text

  /** `char::is_whitespace`: the Unicode White_Space characters. */
  predicate IsWhitespace(c: char)
  {
    || ('\t' <= c <= '\r') || c == ' ' || c == '\U{85}' || c == '\U{A0}' || c == '\U{1680}'
    || ('\U{2000}' <= c <= '\U{200A}') || c == '\U{2028}' || c == '\U{2029}' || c == '\U{202F}'
    || c == '\U{205F}' || c == '\U{3000}'
  }

  predicate AllWhitespace(s: string)
  {
    forall k :: 0 <= k < |s| ==> IsWhitespace(s[k])
  }

  predicate NoOuterWhitespace(s: string)
  {
    s == [] || (!IsWhitespace(s[0]) && !IsWhitespace(s[|s| - 1]))
  }

  /** The end of the run of whitespace that starts at `i`. */
  function LeadingEnd(s: string, i: nat): (n: nat)
    requires i <= |s|
    ensures i <= n <= |s|
    ensures forall k :: i <= k < n ==> IsWhitespace(s[k])
    ensures n == |s| || !IsWhitespace(s[n])
    decreases |s| - i
  {
    if i < |s| && IsWhitespace(s[i]) then LeadingEnd(s, i + 1) else i
  }

  /** The start of the run of whitespace that ends at `j`, not before `lo`. */
  function TrailingStart(s: string, lo: nat, j: nat): (m: nat)
    requires lo <= j <= |s|
    ensures lo <= m <= j
    ensures forall k :: m <= k < j ==> IsWhitespace(s[k])
    ensures m == lo || !IsWhitespace(s[m - 1])
  {
    if lo < j && IsWhitespace(s[j - 1]) then TrailingStart(s, lo, j - 1) else j
  }

  /** `r` is `s` with whitespace cut from both ends, `start` characters of
      it from the front. */
  predicate TrimmedAt(s: string, r: string, start: int)
  {
    && 0 <= start && start + |r| <= |s| && r == s[start..start + |r|]
    && AllWhitespace(s[..start]) && AllWhitespace(s[start + |r|..])
  }

  lemma CutWhitespace(s: string, lo: nat, hi: nat)
    requires lo <= hi <= |s|
    requires forall k :: 0 <= k < lo ==> IsWhitespace(s[k])
    requires forall k :: hi <= k < |s| ==> IsWhitespace(s[k])
    ensures TrimmedAt(s, s[lo..hi], lo)
  {
    forall k | 0 <= k < lo ensures IsWhitespace(s[..lo][k]) {
      assert s[..lo][k] == s[k];
    }
    forall k | 0 <= k < |s| - hi ensures IsWhitespace(s[hi..][k]) {
      assert s[hi..][k] == s[hi + k];
    }
  }

  /** `str::trim`: `s` without its leading and trailing whitespace. */
  function Trim(s: string): (r: string)
    ensures NoOuterWhitespace(r)
    ensures exists start :: TrimmedAt(s, r, start)
  {
    var lo := LeadingEnd(s, 0);
    var hi := TrailingStart(s, lo, |s|);
    CutWhitespace(s, lo, hi);
    assert lo < hi ==> s[lo..hi][0] == s[lo] && s[lo..hi][hi - lo - 1] == s[hi - 1];
    s[lo..hi]
  }

  /** Trimming twice is trimming once. */
  lemma TrimIdempotent(s: string)
    ensures Trim(Trim(s)) == Trim(s)
  {
    var r := Trim(s);
    assert LeadingEnd(r, 0) == 0;
    assert TrailingStart(r, 0, |r|) == |r|;
    assert r[0..|r|] == r;
  }

  /** `inner_text`: the text of every text node below, in order; comments
      contribute nothing. */
  function InnerText(n: Node): string
  {
    match n
    case Text(t) => t
    case Comment(_) => ""
    case Element(_, _, children) => ForestText(children)
  }

  function ForestText(ns: seq<Node>): string
  {
    if ns == [] then "" else InnerText(ns[0]) + ForestText(ns[1..])
  }

  // ---------------------------------------------------------------------
  // parse_page

  /** The `value` of the first `input[name=PHPSESSID]`, if it has one. */
  function SessionId(dom: seq<Node>): Option<string>
  {
    var nodes := Forest(dom);
    match FindFirst(nodes, IsSessionInput)
    case None => None
    case Some(i) =>
      match AttributeValue(nodes[i].attributes, "value")
      case Some(Some(v)) => Some(v)
      case _ => None
  }

  /** The candidates of the message search: every node below a message
      cell, cell after cell. */
  function Candidates(dom: seq<Node>): seq<Node>
  {
    CellDescendants(Select(Forest(dom), IsMessageCell))
  }

  /** Every node below a message cell is a candidate. */
  lemma BelowCellIsCandidate(dom: seq<Node>, c: Node, d: Node)
    requires c in Forest(dom) && IsMessageCell(c) && d in Forest(c.children)
    ensures d in Candidates(dom)
  {
    assert c in Select(Forest(dom), IsMessageCell);
  }

  /** Every candidate lies below a message cell. */
  lemma CandidateIsBelowCell(dom: seq<Node>, j: int)
    requires 0 <= j < |Candidates(dom)|
    ensures exists c :: c in Forest(dom) && IsMessageCell(c) && Candidates(dom)[j] in Forest(c.children)
  {
    var candidates := Candidates(dom);
    assert candidates[j] in candidates;
    var c :| c in Select(Forest(dom), IsMessageCell) && c.Element? && candidates[j] in Forest(c.children);
  }

  /** The trimmed inner text of the first `DIV` below a `TD[align=center]`. */
  function Message(dom: seq<Node>): (r: Option<string>)
    ensures var nodes := Forest(dom);
            r.None? <==> forall c, d :: c in nodes && IsMessageCell(c) && d in Forest(c.children) ==> !IsDiv(d)
    ensures r.Some? ==> NoOuterWhitespace(r.value)
    ensures r.Some? ==> exists i :: FirstWhere(Candidates(dom), i, IsDiv) && r.value == Trim(InnerText(Candidates(dom)[i]))
  {
    var candidates := Candidates(dom);
    match FindFirst(candidates, IsDiv)
    case None =>
      assert forall c, d :: c in Forest(dom) && IsMessageCell(c) && d in Forest(c.children) ==> !IsDiv(d) by {
        forall c, d | c in Forest(dom) && IsMessageCell(c) && d in Forest(c.children) ensures !IsDiv(d) {
          BelowCellIsCandidate(dom, c, d);
        }
      }
      None
    case Some(i) =>
      CandidateIsBelowCell(dom, i);
      Some(Trim(InnerText(candidates[i])))
  }

  /** `parse_page`, on the page once `tl` has parsed it. */
  function ParsePage(dom: seq<Node>): (r: Result<CaptchaState, PortalError>)
    ensures var nodes := Forest(dom);
            r.Err? <==> forall i :: FirstWhere(nodes, i, IsSessionInput) ==>
                          !(AttributeValue(nodes[i].attributes, "value").Some? &&
                            AttributeValue(nodes[i].attributes, "value").value.Some?)
    ensures r.Err? ==> r.error == SessionIdNotFound
    ensures var nodes := Forest(dom);
            r.Ok? ==> exists i :: FirstWhere(nodes, i, IsSessionInput) &&
                        AttributeValue(nodes[i].attributes, "value") == Some(Some(r.value.sessionId))
    ensures var nodes := Forest(dom);
            r.Ok? ==> (r.value.captchaPresent <==> exists i :: 0 <= i < |nodes| && IsCaptchaBox(nodes[i]))
    ensures var nodes := Forest(dom);
            r.Ok? ==> (r.value.message.None? <==>
                       forall c, d :: c in nodes && IsMessageCell(c) && d in Forest(c.children) ==> !IsDiv(d))
    ensures r.Ok? && r.value.message.Some? ==> NoOuterWhitespace(r.value.message.value)
    ensures r.Ok? ==> r.value.message == Message(dom)
  {
    match SessionId(dom)
    case None => Err(SessionIdNotFound)
    case Some(sessionId) =>
      Ok(CaptchaState(FindFirst(Forest(dom), IsCaptchaBox).Some?, sessionId, Message(dom)))
  }

  // ---------------------------------------------------------------------
  // Requests

  datatype Verb = Get | Post

  /** A request as the client sends it: the form is a list of fields in
      order, before form encoding. */
  datatype Request = Request(verb: Verb, url: string, form: seq<(string, string)>)

  const CaptchaPath := "getCaptcha.html?PHPSESSID="

  /** `get_state`: a form POST to the portal with only `viewForm=true`. */
  function StateRequest(baseUrl: string): Request
  {
    Request(Post, baseUrl, [("viewForm", "true")])
  }

  /** `get_captcha`: a GET whose URL carries the session id verbatim. */
  function CaptchaRequest(baseUrl: string, sessionId: string): Request
  {
    Request(Get, baseUrl + CaptchaPath + sessionId, [])
  }

  /** `submit_captcha`: a form POST with the session id and the solution. */
  function SubmitRequest(baseUrl: string, sessionId: string, solution: string): Request
  {
    Request(Post, baseUrl, [("PHPSESSID", sessionId), ("viewForm", "true"), ("captcha", solution)])
  }

  function FieldNames(form: seq<(string, string)>): (names: seq<string>)
    ensures |names| == |form|
    ensures forall k :: 0 <= k < |form| ==> names[k] == form[k].0
  {
    if form == [] then [] else [form[0].0] + FieldNames(form[1..])
  }

  /** The value of the first field called `key`, as the portal reads it. */
  function FormValue(form: seq<(string, string)>, key: string): (r: Option<string>)
    ensures r.None? <==> key !in FieldNames(form)
  {
    if form == [] then None
    else if form[0].0 == key then Some(form[0].1)
    else FormValue(form[1..], key)
  }

  /** The session id the portal reads back from a captcha URL. */
  function SessionOfCaptchaUrl(baseUrl: string, url: string): Option<string>
  {
    var prefix := baseUrl + CaptchaPath;
    if |prefix| <= |url| && url[..|prefix|] == prefix then Some(url[|prefix|..]) else None
  }

  /** The captcha URL is the base URL, the fixed path and the session id, so
      the session id can be read back from it, whatever it contains. */
  lemma CaptchaRequestRoundTrip(baseUrl: string, sessionId: string)
    ensures CaptchaRequest(baseUrl, sessionId).verb == Get
    ensures CaptchaRequest(baseUrl, sessionId).form == []
    ensures SessionOfCaptchaUrl(baseUrl, CaptchaRequest(baseUrl, sessionId).url) == Some(sessionId)
  {
    var prefix := baseUrl + CaptchaPath;
    var url := CaptchaRequest(baseUrl, sessionId).url;
    assert url == prefix + sessionId;
    assert url[..|prefix|] == prefix;
    assert url[|prefix|..] == sessionId;
  }

  /** Different sessions fetch different captcha URLs. */
  lemma CaptchaUrlInjective(baseUrl: string, s1: string, s2: string)
    requires s1 != s2
    ensures CaptchaRequest(baseUrl, s1).url != CaptchaRequest(baseUrl, s2).url
  {
    CaptchaRequestRoundTrip(baseUrl, s1);
    CaptchaRequestRoundTrip(baseUrl, s2);
  }

  /** The state request sends `viewForm=true` and nothing else; in
      particular it carries no session. */
  lemma StateRequestFields(baseUrl: string)
    ensures StateRequest(baseUrl).verb == Post && StateRequest(baseUrl).url == baseUrl
    ensures FieldNames(StateRequest(baseUrl).form) == ["viewForm"]
    ensures FormValue(StateRequest(baseUrl).form, "viewForm") == Some("true")
    ensures FormValue(StateRequest(baseUrl).form, "PHPSESSID") == None
  {
    assert "PHPSESSID" != "viewForm";
  }

  /** A submission sends exactly `PHPSESSID`, `viewForm` and `captcha`, in
      that order, and the portal reads back the session id and the solution
      unchanged. */
  lemma SubmitRequestFields(baseUrl: string, sessionId: string, solution: string)
    ensures SubmitRequest(baseUrl, sessionId, solution).verb == Post
    ensures SubmitRequest(baseUrl, sessionId, solution).url == baseUrl
    ensures FieldNames(SubmitRequest(baseUrl, sessionId, solution).form) == ["PHPSESSID", "viewForm", "captcha"]
    ensures FormValue(SubmitRequest(baseUrl, sessionId, solution).form, "PHPSESSID") == Some(sessionId)
    ensures FormValue(SubmitRequest(baseUrl, sessionId, solution).form, "viewForm") == Some("true")
    ensures FormValue(SubmitRequest(baseUrl, sessionId, solution).form, "captcha") == Some(solution)
  {
    var form := SubmitRequest(baseUrl, sessionId, solution).form;
    assert "viewForm" != "PHPSESSID" && "captcha" != "PHPSESSID" && "captcha" != "viewForm";
    assert FormValue(form, "captcha") == FormValue(form[1..], "captcha") == FormValue(form[2..], "captcha");
  }

  // ---------------------------------------------------------------------
  // The client operations; `send` and `fetch` stand for the HTTP transport
  // (send the request, read the body as a page or as bytes).

  type Bytes = seq<bv8>

  /** `get_state` */
  function GetState(baseUrl: string, send: Request -> Result<seq<Node>, string>)
    : (r: Result<CaptchaState, PortalError>)
    ensures send(StateRequest(baseUrl)).Err? ==> r == Err(Transport(send(StateRequest(baseUrl)).error))
    ensures send(StateRequest(baseUrl)).Ok? ==> r == ParsePage(send(StateRequest(baseUrl)).value)
  {
    match send(StateRequest(baseUrl))
    case Err(e) => Err(Transport(e))
    case Ok(page) => ParsePage(page)
  }

  /** `get_captcha`: the body's bytes, uninterpreted. */
  function GetCaptcha(baseUrl: string, sessionId: string, fetch: Request -> Result<Bytes, string>)
    : (r: Result<Bytes, PortalError>)
    ensures fetch(CaptchaRequest(baseUrl, sessionId)).Err? ==>
              r == Err(Transport(fetch(CaptchaRequest(baseUrl, sessionId)).error))
    ensures fetch(CaptchaRequest(baseUrl, sessionId)).Ok? ==>
              r == Ok(fetch(CaptchaRequest(baseUrl, sessionId)).value)
  {
    match fetch(CaptchaRequest(baseUrl, sessionId))
    case Err(e) => Err(Transport(e))
    case Ok(bytes) => Ok(bytes)
  }

  /** `submit_captcha` */
  function SubmitCaptcha(baseUrl: string, sessionId: string, solution: string,
                         send: Request -> Result<seq<Node>, string>)
    : (r: Result<CaptchaState, PortalError>)
    ensures send(SubmitRequest(baseUrl, sessionId, solution)).Err? ==>
              r == Err(Transport(send(SubmitRequest(baseUrl, sessionId, solution)).error))
    ensures send(SubmitRequest(baseUrl, sessionId, solution)).Ok? ==>
              r == ParsePage(send(SubmitRequest(baseUrl, sessionId, solution)).value)
  {
    match send(SubmitRequest(baseUrl, sessionId, solution))
    case Err(e) => Err(Transport(e))
    case Ok(page) => ParsePage(page)
  }
}
