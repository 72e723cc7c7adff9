/** The two-tier HTTP routing: the controller's node subroutes and proxy, and the agent's VM routes. */
module Routing {
  import opened Text
  import opened GoInt
  import opened ClusterTypes
  import opened MeshAddress
  import Engine = EngineModel

  datatype Verb = GET | POST | DELETE | OtherVerb(name: string)

  /** What each JSON decoder makes of the request body; None is a decoding error. Checkpoint names
      are decoded with errors ignored. */
  datatype Body = Body(
    create: Option<Engine.CreateRequest>, checkpointName: string,
    resize: Option<(int, uint64)>, expandGB: Option<uint64>, cloneName: Option<string>,
    heartbeat: Option<(Metrics, string)>)

  datatype Request = Request(verb: Verb, path: string, rawQuery: string, body: Body)

  // ---------- paths ----------

  function Tail(segs: seq<string>): string {
    if segs == [] then "" else "/" + (segs[0] + Tail(segs[1..]))
  }

  predicate IsSpecial(c: char) {
    c == '/' || c == '?' || c == '#' || c == '%'
  }

  /** No character that a URL would treat specially. */
  predicate PlainText(s: string) {
    forall i :: 0 <= i < |s| ==> !IsSpecial(s[i])
  }

  /** Segments that path cleaning removes. */
  predicate IsDots(s: string) {
    s == "" || s == "." || s == ".."
  }

  /** A segment that URLs carry unchanged. */
  predicate PlainSegment(s: string) {
    !IsDots(s) && PlainText(s)
  }

  predicate PlainSegments(segs: seq<string>) {
    forall k :: 0 <= k < |segs| ==> PlainSegment(segs[k])
  }

  /** ServeMux serves a path as it is only if cleaning leaves it alone; a final slash may stay. */
  predicate IsClean(path: string) {
    var parts := Split(path, '/');
    && |parts| >= 2 && parts[0] == ""
    && (forall k :: 1 <= k < |parts| - 1 ==> !IsDots(parts[k]))
    && (parts[|parts| - 1] == "" || !IsDots(parts[|parts| - 1]))
  }

  // ---------- the agent ----------

  datatype AgentCall =
    | Invoke(op: Engine.Op)
    | HostReboot
    | HostShutdown
    | Refuse(code: int)

  const VMS := "/api/v1/vms"

  /** The /api/v1/vms handler. */
  function VMCollection(verb: Verb, body: Body, clock: Engine.Clock): AgentCall {
    match verb
    case GET => Invoke(Engine.ListVMs)
    case POST => if body.create.Some? then Invoke(Engine.CreateVM(body.create.value, clock)) else Refuse(400)
    case _ => Refuse(405)
  }

  datatype VMAction = Start | Stop | Restart | Checkpoints | Resize | ExpandDisk | Clone | UnknownAction

  function ParseVMAction(s: string): VMAction {
    if s == "start" then Start
    else if s == "stop" then Stop
    else if s == "restart" then Restart
    else if s == "checkpoints" then Checkpoints
    else if s == "resize" then Resize
    else if s == "expand-disk" then ExpandDisk
    else if s == "clone" then Clone
    else UnknownAction
  }

  /** The /api/v1/vms/ handler on the split remainder of the path. */
  function VMItem(parts: seq<string>, verb: Verb, body: Body, clock: Engine.Clock): AgentCall
    requires |parts| >= 1
  {
    var vmID := parts[0];
    if |parts| == 1 then
      match verb
      case GET => Invoke(Engine.GetVM(vmID))
      case DELETE => Invoke(Engine.DeleteVM(vmID, true))
      case _ => Refuse(405)
    else
      match ParseVMAction(parts[1])
      case Start => Invoke(Engine.StartVM(vmID))
      case Stop => Invoke(Engine.StopVM(vmID, false))
      case Restart => Invoke(Engine.RestartVM(vmID))
      case Checkpoints => CheckpointRoute(vmID, parts[2..], verb, body, clock)
      case Resize =>
        if verb != POST then Refuse(405)
        else if body.resize.None? then Refuse(400)
        else Invoke(Engine.ResizeVM(vmID, body.resize.value.0, body.resize.value.1))
      case ExpandDisk =>
        if verb != POST then Refuse(405)
        else if body.expandGB.None? then Refuse(400)
        else Invoke(Engine.ExpandDisk(vmID, body.expandGB.value))
      case Clone =>
        if verb != POST then Refuse(405)
        else if body.cloneName.None? then Refuse(400)
        else Invoke(Engine.CloneVM(vmID, body.cloneName.value, clock))
      case UnknownAction => Refuse(404)
  }

  function CheckpointRoute(vmID: string, sub: seq<string>, verb: Verb, body: Body, clock: Engine.Clock): AgentCall {
    if sub == [] then
      match verb
      case GET => Invoke(Engine.ListCheckpoints(vmID))
      case POST => Invoke(Engine.CreateCheckpoint(vmID, body.checkpointName, clock))
      case _ => Refuse(405)
    else if sub[0] == "restore" && verb == POST then Invoke(Engine.RestoreCheckpoint(vmID, body.checkpointName))
    else if verb == DELETE then Invoke(Engine.DeleteCheckpoint(vmID, sub[0]))
    else Refuse(404)
  }

  function AgentDispatch(verb: Verb, path: string, body: Body, clock: Engine.Clock): AgentCall {
    if !IsClean(path) then Refuse(301)
    else if path == VMS then VMCollection(verb, body, clock)
    else if HasPrefix(path, VMS + "/") then
      VMItem(Split(TrimPrefix(path, VMS + "/"), '/'), verb, body, clock)
    else if path == "/api/v1/switches" then Invoke(Engine.ListVirtualSwitches)
    else if path == "/api/v1/host/reboot" then if verb == POST then HostReboot else Refuse(405)
    else if path == "/api/v1/host/shutdown" then if verb == POST then HostShutdown else Refuse(405)
    else Refuse(404)
  }

  // ---------- the controller ----------

  datatype ControllerAction =
    | RemoveNode(id: string)
    | ShowNode(node: NodeRecord)
    | RecordHeartbeat(id: string, metrics: Metrics, version: string)
    | PushUpdate(node: NodeRecord)
    | SendWakeOnLAN(mac: string)
    | Forward(url: string, verb: Verb, body: Body)
    | Reply(code: int)

  const NODES := "/api/v1/nodes/"

  datatype NodeAction = Heartbeat | Update | WakeOnLAN | VMs | Switches | Reboot | Shutdown | UnknownSubroute

  function ParseNodeAction(s: string): NodeAction {
    if s == "heartbeat" then Heartbeat
    else if s == "update" then Update
    else if s == "wol" then WakeOnLAN
    else if s == "vms" then VMs
    else if s == "switches" then Switches
    else if s == "reboot" then Reboot
    else if s == "shutdown" then Shutdown
    else UnknownSubroute
  }

  /** handleNodeSubroutes */
  function NodeSubroutes(nodes: map<string, NodeRecord>, r: Request): ControllerAction {
    var path := TrimPrefix(r.path, NODES);
    var parts := Split(path, '/');
    if |parts| == 1 then NodeItem(nodes, parts[0], r.verb)
    else NodeSubroute(nodes, parts[0], ParseNodeAction(parts[1]), TrimPrefix(path, parts[0] + "/"), r)
  }

  function NodeItem(nodes: map<string, NodeRecord>, nodeID: string, verb: Verb): ControllerAction {
    match verb
    case DELETE => if nodeID in nodes then RemoveNode(nodeID) else Reply(404)
    case GET => if nodeID in nodes then ShowNode(nodes[nodeID]) else Reply(404)
    case _ => Reply(405)
  }

  function NodeSubroute(nodes: map<string, NodeRecord>, nodeID: string, action: NodeAction, subPath: string,
                        r: Request): ControllerAction
  {
    if action == UnknownSubroute then Reply(404)
    else if action != VMs && action != Switches && r.verb != POST then Reply(405)
    else if action == Heartbeat && r.body.heartbeat.None? then Reply(400)
    else if nodeID !in nodes then Reply(404)
    else
      var node := nodes[nodeID];
      match action
      case VMs => ProxyToNode(node, subPath, r)
      case Switches => ProxyToNode(node, "switches", r)
      case Reboot => ProxyToNode(node, "host/reboot", r)
      case Shutdown => ProxyToNode(node, "host/shutdown", r)
      case Heartbeat => RecordHeartbeat(nodeID, r.body.heartbeat.value.0, r.body.heartbeat.value.1)
      case Update => if node.status == Offline then Reply(502) else PushUpdate(node)
      case WakeOnLAN => if node.hardware.macAddress == "" then Reply(400) else SendWakeOnLAN(node.hardware.macAddress)
      case UnknownSubroute => Reply(404)
  }

  function TargetURL(node: NodeRecord, subpath: string, rawQuery: string): string {
    var port := if node.agentPort == 0 then 8081 else node.agentPort;
    var query := if rawQuery != "" then "?" + rawQuery else "";
    "http://" + ((node.ipAddress + (":" + IntText(port))) + (("/api/v1/" + subpath) + query))
  }

  predicate IsControl(c: char) {
    c < ' ' || c == '\U{7F}'
  }

  predicate NoControl(s: string) {
    forall i :: 0 <= i < |s| ==> !IsControl(s[i])
  }

  /** http.NewRequest refuses a URL with control characters. */
  function ProxyToNode(node: NodeRecord, subpath: string, r: Request): ControllerAction {
    if node.status == Offline then Reply(502)
    else
      var url := TargetURL(node, subpath, r.rawQuery);
      if NoControl(url) then Forward(url, r.verb, r.body) else Reply(500)
  }

  // ---------- what arrives at the agent ----------

  /** Length of the part of a URL before its query or fragment. */
  function BeforeQuery(s: string): (n: nat)
    ensures n <= |s|
  {
    if s == "" || s[0] == '?' || s[0] == '#' then 0 else 1 + BeforeQuery(s[1..])
  }

  /** The path of an http URL without percent escapes. */
  function URLPath(url: string): string {
    var rest := TrimPrefix(url[..BeforeQuery(url)], "http://");
    rest[Index(rest, '/')..]
  }

  /** Host and port of an http URL: the text between "http://" and the next slash. */
  function Authority(url: string): string {
    var rest := TrimPrefix(url, "http://");
    rest[..Index(rest, '/')]
  }

  /** What follows the first question mark. */
  function QueryOf(url: string): Option<string> {
    var n := Index(url, '?');
    if n == |url| then None else Some(url[n + 1..])
  }

  /** The URL addresses this path and query on the node's own address and agent port, 8081 if it has
      registered none; reading the number behind the colon gives that port back. */
  predicate GoesTo(node: NodeRecord, url: string, path: string, rawQuery: string) {
    var port := if node.agentPort == 0 then 8081 else node.agentPort;
    && HasPrefix(url, "http://")
    && Authority(url) == node.ipAddress + (":" + IntText(port))
    && ScanInt(Authority(url)[|node.ipAddress| + 1..]) == Some(port)
    && URLPath(url) == path
    && QueryOf(url) == if rawQuery == "" then None else Some(rawQuery)
  }

  lemma TargetGoes(node: NodeRecord, subpath: string, rawQuery: string)
    requires PlainText(node.ipAddress) && Free(subpath, '?') && Free(subpath, '#')
    ensures GoesTo(node, TargetURL(node, subpath, rawQuery), "/api/v1/" + subpath, rawQuery)
  {
    var port := if node.agentPort == 0 then 8081 else node.agentPort;
    var authority, path := node.ipAddress + (":" + IntText(port)), "/api/v1/" + subpath;
    var query := if rawQuery != "" then "?" + rawQuery else "";
    AuthorityPlain(node.ipAddress, port);
    PathPlain(subpath);
    URLPathOfTarget(authority, path, query);
    AuthorityOfTarget(authority, path, query);
    QueryOfTarget(authority, path, rawQuery);
    PortReads(node.ipAddress, port);
  }

  lemma PortReads(ip: string, port: int)
    ensures ScanInt((ip + (":" + IntText(port)))[|ip| + 1..]) == Some(port)
  {
    ScanIntPrinted(port, "");
    assert (ip + (":" + IntText(port)))[|ip| + 1..] == IntText(port) && IntText(port) + "" == IntText(port);
  }

  lemma AuthorityPlain(ip: string, port: int)
    requires PlainText(ip)
    ensures PlainText(ip + (":" + IntText(port)))
  {
    IntTextPlain(port);
  }

  lemma PathPlain(subpath: string)
    requires Free(subpath, '?') && Free(subpath, '#')
    ensures
      var path := "/api/v1/" + subpath;
      path[0] == '/' && Free(path, '?') && Free(path, '#')
  {
    var root := "/api/v1/";
    assert Free(root, '?') && Free(root, '#');
  }

  lemma AuthorityOfTarget(authority: string, path: string, query: string)
    requires PlainText(authority) && path != "" && path[0] == '/'
    ensures
      var url := "http://" + (authority + (path + query));
      HasPrefix(url, "http://") && Authority(url) == authority
  {
    var rest := authority + (path + query);
    PrefixOfConcat("http://", rest);
    IndexOfFirst(authority, '/', path[1..] + query);
    assert rest == authority + ['/'] + (path[1..] + query);
    assert rest[..|authority|] == authority;
  }

  lemma QueryOfTarget(authority: string, path: string, rawQuery: string)
    requires PlainText(authority) && Free(path, '?')
    ensures
      var url := "http://" + (authority + (path + if rawQuery != "" then "?" + rawQuery else ""));
      QueryOf(url) == if rawQuery == "" then None else Some(rawQuery)
  {
    var shown := "http://" + (authority + path);
    assert Free("http://", '?') && Free(authority, '?');
    assert Free(authority + path, '?');
    assert Free(shown, '?');
    ConcatAssoc(authority, path, if rawQuery != "" then "?" + rawQuery else "");
    ConcatAssoc("http://", authority + path, if rawQuery != "" then "?" + rawQuery else "");
    IndexOfFirst(shown, '?', rawQuery);
    if rawQuery != "" {
      ConcatAssoc(shown, "?", rawQuery);
      assert (shown + ['?'] + rawQuery)[|shown| + 1..] == rawQuery;
    } else {
      assert shown + "" == shown;
    }
  }

  lemma {:induction false} BeforeQueryStops(s: string, query: string)
    requires forall i :: 0 <= i < |s| ==> s[i] != '?' && s[i] != '#'
    requires query == "" || query[0] == '?'
    ensures BeforeQuery(s + query) == |s|
  {
    if s == "" {
      assert s + query == query;
    } else {
      assert (s + query)[1..] == s[1..] + query;
      BeforeQueryStops(s[1..], query);
    }
  }

  lemma URLPathOfTarget(authority: string, path: string, query: string)
    requires PlainText(authority)
    requires forall i :: 0 <= i < |path| ==> path[i] != '?' && path[i] != '#'
    requires path != "" && path[0] == '/'
    requires query == "" || query[0] == '?'
    ensures URLPath("http://" + (authority + (path + query))) == path
  {
    var scheme := "http://";
    var rest := authority + path;
    var shown := scheme + rest;
    ConcatAssoc(authority, path, query);
    ConcatAssoc(scheme, rest, query);
    assert forall i :: 0 <= i < |rest| ==> rest[i] == if i < |authority| then authority[i] else path[i - |authority|];
    forall i | 0 <= i < |shown|
      ensures shown[i] != '?' && shown[i] != '#'
    {
      assert i >= |scheme| ==> shown[i] == rest[i - |scheme|];
    }
    BeforeQueryStops(shown, query);
    assert (shown + query)[..|shown|] == shown;
    PrefixOfConcat(scheme, rest);
    IndexOfFirst(authority, '/', path[1..]);
    assert path == ['/'] + path[1..];
    ConcatAssoc(authority, ['/'], path[1..]);
    assert rest[|authority|..] == path;
  }

  lemma {:induction false} TailSafe(segs: seq<string>)
    requires PlainSegments(segs)
    ensures forall i :: 0 <= i < |Tail(segs)| ==> Tail(segs)[i] == '/' || !IsSpecial(Tail(segs)[i])
  {
    if segs == [] {
    } else {
      assert PlainSegment(segs[0]) && PlainSegments(segs[1..]);
      TailSafe(segs[1..]);
    }
  }

  lemma {:induction false} SplitTail(head: string, segs: seq<string>)
    requires Free(head, '/') && PlainSegments(segs)
    ensures Split(head + Tail(segs), '/') == [head] + segs
    decreases |segs|
  {
    if segs == [] {
      SplitFirst(head, '/', "");
      assert head + Tail(segs) == head;
    } else {
      assert PlainSegment(segs[0]) && PlainSegments(segs[1..]);
      SegmentFree(segs[0]);
      SplitTail(segs[0], segs[1..]);
      var rest := segs[0] + Tail(segs[1..]);
      SplitFirst(head, '/', rest);
      ConcatAssoc(head, "/", rest);
      assert segs == [segs[0]] + segs[1..];
    }
  }

  lemma SegmentFree(s: string)
    requires PlainSegment(s)
    ensures Free(s, '/')
  {
    assert IsSpecial('/');
  }

  // ---------- routing is transparent ----------

  /** /api/v1/nodes/<nodeID>/vms/<segs...> */
  function NodeVMPath(nodeID: string, segs: seq<string>): string {
    NODES + (nodeID + ("/" + ("vms" + Tail(segs))))
  }

  /** The engine operation a VM request means, on segments rather than text. */
  function Meaning(segs: seq<string>, verb: Verb, body: Body, clock: Engine.Clock): AgentCall {
    if segs == [] then VMCollection(verb, body, clock) else VMItem(segs, verb, body, clock)
  }

  lemma VMPathClean(segs: seq<string>)
    requires PlainSegments(segs)
    ensures IsClean(VMS + Tail(segs))
  {
    var base := ["api", "v1", "vms"];
    var all := base + segs;
    assert PlainSegments(base);
    assert Tail(base) == VMS by {
      assert base[1..] == ["v1", "vms"] && ["v1", "vms"][1..] == ["vms"] && ["vms"][1..] == [];
    }
    TailOfConcat(base, segs);
    CleanTail(all);
  }

  lemma CleanTail(segs: seq<string>)
    requires PlainSegments(segs) && segs != []
    ensures IsClean(Tail(segs))
  {
    SplitTail("", segs);
    assert "" + Tail(segs) == Tail(segs);
    NoDots(segs, Split(Tail(segs), '/'));
  }

  lemma NoDots(segs: seq<string>, parts: seq<string>)
    requires PlainSegments(segs) && parts == [""] + segs
    ensures |parts| == |segs| + 1 && parts[0] == "" && forall k :: 1 <= k < |parts| ==> !IsDots(parts[k])
  {
    forall k | 1 <= k < |parts|
      ensures !IsDots(parts[k])
    {
      assert parts[k] == segs[k - 1] && PlainSegment(segs[k - 1]);
    }
  }

  lemma {:induction false} TailOfConcat(a: seq<string>, b: seq<string>)
    ensures Tail(a + b) == Tail(a) + Tail(b)
  {
    if a == [] {
      assert a + b == b;
    } else {
      assert (a + b)[1..] == a[1..] + b;
      TailOfConcat(a[1..], b);
      ConcatAssoc(a[0], Tail(a[1..]), Tail(b));
      ConcatAssoc("/", a[0] + Tail(a[1..]), Tail(b));
    }
  }

  /** A direct request to the agent invokes what its segments mean. */
  lemma AgentMeaning(segs: seq<string>, verb: Verb, body: Body, clock: Engine.Clock)
    requires PlainSegments(segs)
    ensures AgentDispatch(verb, VMS + Tail(segs), body, clock) == Meaning(segs, verb, body, clock)
  {
    VMPathClean(segs);
    if segs == [] {
      assert VMS + Tail(segs) == VMS;
    } else {
      TrimBase(VMS, segs);
      SplitSegments(segs);
    }
  }

  lemma SplitSegments(segs: seq<string>)
    requires PlainSegments(segs) && segs != []
    ensures Split(segs[0] + Tail(segs[1..]), '/') == segs
  {
    assert PlainSegment(segs[0]) && PlainSegments(segs[1..]);
    SegmentFree(segs[0]);
    SplitTail(segs[0], segs[1..]);
    assert segs == [segs[0]] + segs[1..];
  }

  lemma TrimBase(base: string, segs: seq<string>)
    requires segs != []
    ensures
      var path := base + Tail(segs);
      path != base && HasPrefix(path, base + "/") && TrimPrefix(path, base + "/") == segs[0] + Tail(segs[1..])
  {
    var rest := segs[0] + Tail(segs[1..]);
    ConcatAssoc(base, "/", rest);
    PrefixOfConcat(base + "/", rest);
  }

  /** Every character of a VM request that the target URL repeats can stand in one. */
  predicate Carried(node: NodeRecord, segs: seq<string>, rawQuery: string) {
    NoControl(node.ipAddress) && NoControl(rawQuery) && forall k :: 0 <= k < |segs| ==> NoControl(segs[k])
  }

  /** A request for a node's VMs through the controller, to a node that is not OFFLINE, for every plain
      path, verb, body and query: without control characters it reaches the agent as the operation,
      VM id, action and checkpoint name of the direct request; with any, the controller answers 500. */
  lemma ProxyIsTransparent(nodes: map<string, NodeRecord>, nodeID: string, segs: seq<string>, r: Request,
                           clock: Engine.Clock)
    requires PlainSegment(nodeID) && PlainSegments(segs)
    requires nodeID in nodes && nodes[nodeID].status != Offline && PlainText(nodes[nodeID].ipAddress)
    requires r.path == NodeVMPath(nodeID, segs)
    ensures
      var action := NodeSubroutes(nodes, r);
      && (action.Forward? <==> Carried(nodes[nodeID], segs, r.rawQuery))
      && (!action.Forward? ==> action == Reply(500))
      && (action.Forward? ==>
            && action.verb == r.verb && action.body == r.body
            && GoesTo(nodes[nodeID], action.url, VMS + Tail(segs), r.rawQuery)
            && AgentDispatch(action.verb, URLPath(action.url), action.body, clock)
                == Meaning(segs, r.verb, r.body, clock))
  {
    var node := nodes[nodeID];
    ControllerForwards(nodes, nodeID, segs, r);
    TargetArrives(node, segs, r.rawQuery);
    TargetControl(node, segs, r.rawQuery);
    AgentMeaning(segs, r.verb, r.body, clock);
  }

  lemma ControllerForwards(nodes: map<string, NodeRecord>, nodeID: string, segs: seq<string>, r: Request)
    requires PlainSegment(nodeID) && PlainSegments(segs) && nodeID in nodes
    requires r.path == NodeVMPath(nodeID, segs)
    ensures NodeSubroutes(nodes, r) == ProxyToNode(nodes[nodeID], "vms" + Tail(segs), r)
  {
    var subPath := "vms" + Tail(segs);
    SegmentFree(nodeID);
    SplitTail("vms", segs);
    NodePath(nodeID, subPath);
    PrefixOfConcat(NODES, nodeID + ("/" + subPath));
    VMsAction();
    Dispatched(nodes, r, nodeID, subPath, segs);
  }

  lemma Dispatched(nodes: map<string, NodeRecord>, r: Request, nodeID: string, subPath: string, segs: seq<string>)
    requires
      var path := TrimPrefix(r.path, NODES);
      Split(path, '/') == [nodeID] + (["vms"] + segs) && TrimPrefix(path, nodeID + "/") == subPath
    requires nodeID in nodes && ParseNodeAction("vms") == VMs
    ensures NodeSubroutes(nodes, r) == ProxyToNode(nodes[nodeID], subPath, r)
  {
    var parts := [nodeID] + (["vms"] + segs);
    assert |parts| > 1 && parts[0] == nodeID && parts[1] == "vms";
  }

  lemma VMsAction()
    ensures ParseNodeAction("vms") == VMs
  {
  }

  lemma NodePath(nodeID: string, subPath: string)
    requires Free(nodeID, '/')
    ensures
      var path := nodeID + ("/" + subPath);
      Split(path, '/') == [nodeID] + Split(subPath, '/') && TrimPrefix(path, nodeID + "/") == subPath
  {
    SplitFirst(nodeID, '/', subPath);
    ConcatAssoc(nodeID, "/", subPath);
    PrefixOfConcat(nodeID + "/", subPath);
  }

  lemma IntTextPlain(n: int)
    ensures PlainText(IntText(n))
  {
    NatTextRoundTrip(Abs(n));
    assert forall i :: 0 <= i < |NatText(Abs(n))| ==> IsDigit(NatText(Abs(n))[i]);
  }

  lemma TargetArrives(node: NodeRecord, segs: seq<string>, rawQuery: string)
    requires PlainSegments(segs) && PlainText(node.ipAddress)
    ensures GoesTo(node, TargetURL(node, "vms" + Tail(segs), rawQuery), VMS + Tail(segs), rawQuery)
  {
    TailSafe(segs);
    assert Free("vms", '?') && Free("vms", '#') && Free(Tail(segs), '?') && Free(Tail(segs), '#');
    TargetGoes(node, "vms" + Tail(segs), rawQuery);
    ConcatAssoc("/api/v1/", "vms", Tail(segs));
    VMSPrefix();
  }

  lemma VMSPrefix()
    ensures "/api/v1/" + "vms" == VMS
  {
  }

  /** The target URL has a control character exactly if the address, the path or the query has. */
  lemma URLControl(node: NodeRecord, subpath: string, rawQuery: string)
    ensures NoControl(TargetURL(node, subpath, rawQuery)) <==>
              NoControl(node.ipAddress) && NoControl(subpath) && NoControl(rawQuery)
  {
    var port := if node.agentPort == 0 then 8081 else node.agentPort;
    var authority := node.ipAddress + (":" + IntText(port));
    var rest := ("/api/v1/" + subpath) + if rawQuery != "" then "?" + rawQuery else "";
    AuthorityControl(node.ipAddress, port);
    PathControl(subpath, rawQuery);
    NoControlConcat(authority, rest);
    NoControlConcat("http://", authority + rest);
  }

  lemma AuthorityControl(ip: string, port: int)
    ensures NoControl(ip + (":" + IntText(port))) <==> NoControl(ip)
  {
    PortNoControl(port);
    NoControlConcat(":", IntText(port));
    NoControlConcat(ip, ":" + IntText(port));
  }

  lemma PathControl(subpath: string, rawQuery: string)
    ensures
      var query := if rawQuery != "" then "?" + rawQuery else "";
      NoControl(("/api/v1/" + subpath) + query) <==> NoControl(subpath) && NoControl(rawQuery)
  {
    NoControlConcat("?", rawQuery);
    NoControlConcat("/api/v1/", subpath);
    NoControlConcat("/api/v1/" + subpath, if rawQuery != "" then "?" + rawQuery else "");
  }

  lemma TargetControl(node: NodeRecord, segs: seq<string>, rawQuery: string)
    ensures NoControl(TargetURL(node, "vms" + Tail(segs), rawQuery)) <==> Carried(node, segs, rawQuery)
  {
    URLControl(node, "vms" + Tail(segs), rawQuery);
    NoControlConcat("vms", Tail(segs));
    TailControl(segs);
  }

  lemma PortNoControl(n: int)
    ensures NoControl(IntText(n))
  {
    NatTextRoundTrip(Abs(n));
    assert forall i :: 0 <= i < |NatText(Abs(n))| ==> IsDigit(NatText(Abs(n))[i]);
  }

  lemma {:induction false} TailControl(segs: seq<string>)
    ensures NoControl(Tail(segs)) <==> forall k :: 0 <= k < |segs| ==> NoControl(segs[k])
  {
    if segs == [] {
    } else {
      TailControl(segs[1..]);
      NoControlConcat(segs[0], Tail(segs[1..]));
      NoControlConcat("/", segs[0] + Tail(segs[1..]));
      assert segs == [segs[0]] + segs[1..];
    }
  }

  lemma NoControlConcat(a: string, b: string)
    ensures NoControl(a + b) <==> NoControl(a) && NoControl(b)
  {
    assert forall i :: 0 <= i < |a| ==> (a + b)[i] == a[i];
    assert forall i :: 0 <= i < |b| ==> (a + b)[|a| + i] == b[i];
  }

  /** No request whatever is forwarded, or pushed as an update, to an unknown or OFFLINE node. */
  lemma OfflineNeverContacted(nodes: map<string, NodeRecord>, r: Request)
    ensures
      var action := NodeSubroutes(nodes, r);
      var nodeID := Split(TrimPrefix(r.path, NODES), '/')[0];
      action.Forward? || action.PushUpdate? ==> nodeID in nodes && nodes[nodeID].status != Offline
  {
    var path := TrimPrefix(r.path, NODES);
    var parts := Split(path, '/');
    if |parts| > 1 {
      OfflineSubroute(nodes, parts[0], ParseNodeAction(parts[1]), TrimPrefix(path, parts[0] + "/"), r);
    }
  }

  lemma OfflineSubroute(nodes: map<string, NodeRecord>, nodeID: string, action: NodeAction, subPath: string, r: Request)
    ensures
      var a := NodeSubroute(nodes, nodeID, action, subPath, r);
      a.Forward? || a.PushUpdate? ==> nodeID in nodes && nodes[nodeID].status != Offline
  {
  }

  // ---------- effect on the engine ----------

  function Effect(cfg: Engine.Config, e: Engine.Engine, call: AgentCall): Engine.Engine {
    if call.Invoke? then Engine.Apply(cfg, e, call.op) else e
  }

  /** The state of a node's engine after a request through the controller. */
  function Through(cfg: Engine.Config, e: Engine.Engine, nodes: map<string, NodeRecord>, r: Request,
                   clock: Engine.Clock): Engine.Engine
  {
    var action := NodeSubroutes(nodes, r);
    if action.Forward? then Effect(cfg, e, AgentDispatch(action.verb, URLPath(action.url), action.body, clock)) else e
  }

  /** The engine ends up as after the direct request, or untouched when the node is OFFLINE or the
      request has a control character. */
  lemma ThroughEqualsDirect(cfg: Engine.Config, e: Engine.Engine, nodes: map<string, NodeRecord>, nodeID: string,
                            segs: seq<string>, r: Request, clock: Engine.Clock)
    requires PlainSegment(nodeID) && PlainSegments(segs)
    requires nodeID in nodes && PlainText(nodes[nodeID].ipAddress)
    requires r.path == NodeVMPath(nodeID, segs)
    ensures Through(cfg, e, nodes, r, clock) ==
              if nodes[nodeID].status == Offline || !Carried(nodes[nodeID], segs, r.rawQuery) then e
              else Effect(cfg, e, AgentDispatch(r.verb, VMS + Tail(segs), r.body, clock))
  {
    if nodes[nodeID].status == Offline {
      ControllerForwards(nodes, nodeID, segs, r);
    } else {
      ProxyIsTransparent(nodes, nodeID, segs, r, clock);
      AgentMeaning(segs, r.verb, r.body, clock);
    }
  }

  // ---------- every operation has its request ----------

  const NO_BODY := Body(None, "", None, None, None, None)

  /** The request a client sends for an operation: verb, segments after /api/v1/vms, and body. Forced
      stops, deletes that keep the disk and switch creation have none. */
  function RequestFor(op: Engine.Op): Option<(Verb, seq<string>, Body)> {
    match op
    case ListVMs => Some((GET, [], NO_BODY))
    case CreateVM(req, _) => Some((POST, [], NO_BODY.(create := Some(req))))
    case GetVM(key) => Some((GET, [key], NO_BODY))
    case DeleteVM(id, deleteDisk) => if deleteDisk then Some((DELETE, [id], NO_BODY)) else None
    case StartVM(id) => Some((POST, [id, "start"], NO_BODY))
    case StopVM(id, force) => if force then None else Some((POST, [id, "stop"], NO_BODY))
    case RestartVM(id) => Some((POST, [id, "restart"], NO_BODY))
    case ResizeVM(id, cpus, mb) => Some((POST, [id, "resize"], NO_BODY.(resize := Some((cpus, mb)))))
    case ExpandDisk(id, gb) => Some((POST, [id, "expand-disk"], NO_BODY.(expandGB := Some(gb))))
    case CloneVM(id, name, _) => Some((POST, [id, "clone"], NO_BODY.(cloneName := Some(name))))
    case ListCheckpoints(id) => Some((GET, [id, "checkpoints"], NO_BODY))
    case CreateCheckpoint(id, name, _) => Some((POST, [id, "checkpoints"], NO_BODY.(checkpointName := name)))
    case RestoreCheckpoint(id, name) => Some((POST, [id, "checkpoints", "restore"], NO_BODY.(checkpointName := name)))
    case DeleteCheckpoint(id, name) => Some((DELETE, [id, "checkpoints", name], NO_BODY))
    case _ => None
  }

  /** The clock an operation is stamped with when the agent runs it. */
  function Restamp(op: Engine.Op, clock: Engine.Clock): Engine.Op {
    if op.CreateVM? || op.CloneVM? || op.CreateCheckpoint? then op.(clock := clock) else op
  }

  lemma ActionNames()
    ensures ParseVMAction("start") == Start && ParseVMAction("stop") == Stop && ParseVMAction("restart") == Restart
    ensures ParseVMAction("checkpoints") == Checkpoints && ParseVMAction("resize") == Resize
    ensures ParseVMAction("expand-disk") == ExpandDisk && ParseVMAction("clone") == Clone
  {
  }

  /** Decoding a request gives back the operation it was made for. */
  lemma RequestRoundTrip(op: Engine.Op, clock: Engine.Clock)
    requires RequestFor(op).Some?
    ensures
      var (verb, segs, body) := RequestFor(op).value;
      Meaning(segs, verb, body, clock) == Invoke(Restamp(op, clock))
  {
    ActionNames();
  }

  /** An operation's request, sent to the agent directly, invokes that operation. */
  lemma OperationDirect(op: Engine.Op, clock: Engine.Clock)
    requires RequestFor(op).Some? && PlainSegments(RequestFor(op).value.1)
    ensures
      var (verb, segs, body) := RequestFor(op).value;
      AgentDispatch(verb, VMS + Tail(segs), body, clock) == Invoke(Restamp(op, clock))
  {
    var (verb, segs, body) := RequestFor(op).value;
    AgentMeaning(segs, verb, body, clock);
    RequestRoundTrip(op, clock);
  }

  /** End to end: the request for an operation, sent through the controller to a node that is not
      OFFLINE, leaves the node's engine as the operation itself does, or untouched if the request's
      segments have a control character. */
  lemma OperationThroughController(cfg: Engine.Config, e: Engine.Engine, nodes: map<string, NodeRecord>, nodeID: string,
                                   op: Engine.Op, clock: Engine.Clock)
    requires RequestFor(op).Some? && PlainSegment(nodeID) && PlainSegments(RequestFor(op).value.1)
    requires nodeID in nodes && nodes[nodeID].status != Offline && PlainText(nodes[nodeID].ipAddress)
    ensures
      var (verb, segs, body) := RequestFor(op).value;
      Through(cfg, e, nodes, Request(verb, NodeVMPath(nodeID, segs), "", body), clock)
      == if Carried(nodes[nodeID], segs, "") then Engine.Apply(cfg, e, Restamp(op, clock)) else e
  {
    var (verb, segs, body) := RequestFor(op).value;
    var r := Request(verb, NodeVMPath(nodeID, segs), "", body);
    ThroughEqualsDirect(cfg, e, nodes, nodeID, segs, r, clock);
    OperationDirect(op, clock);
  }

  lemma DeleteShortens(cfg: Engine.Config, e: Engine.Engine, id: string, name: string)
    requires Engine.Succeeds(cfg, e, Engine.DeleteCheckpoint(id, name))
    ensures |Engine.List(Engine.Apply(cfg, e, Engine.DeleteCheckpoint(id, name)), id)| == |Engine.List(e, id)| - 1
  {
  }

  /** Where the two ways differ: a checkpoint whose name has a control character is deleted by the
      direct request, and stays when the request goes through the controller. */
  lemma ControlCharacterStops(cfg: Engine.Config, e: Engine.Engine, nodes: map<string, NodeRecord>, nodeID: string,
                              id: string, name: string, clock: Engine.Clock)
    requires PlainSegment(nodeID) && PlainSegment(id) && PlainSegment(name) && !NoControl(name)
    requires nodeID in nodes && nodes[nodeID].status != Offline && PlainText(nodes[nodeID].ipAddress)
    requires Engine.Succeeds(cfg, e, Engine.DeleteCheckpoint(id, name))
    ensures
      var (verb, segs, body) := RequestFor(Engine.DeleteCheckpoint(id, name)).value;
      && Through(cfg, e, nodes, Request(verb, NodeVMPath(nodeID, segs), "", body), clock) == e
      && Effect(cfg, e, AgentDispatch(verb, VMS + Tail(segs), body, clock)) != e
  {
    var op := Engine.DeleteCheckpoint(id, name);
    var (verb, segs, body) := RequestFor(op).value;
    assert segs[2] == name && PlainSegments(segs);
    OperationThroughController(cfg, e, nodes, nodeID, op, clock);
    OperationDirect(op, clock);
    DeleteShortens(cfg, e, id, name);
  }

  /** Such an input: the checkpoint "a\nb" of the seeded VM, which one call creates. */
  lemma LineBreakStops(cfg: Engine.Config, now: int, nodes: map<string, NodeRecord>, nodeID: string,
                       clock: Engine.Clock)
    requires PlainSegment(nodeID)
    requires nodeID in nodes && nodes[nodeID].status != Offline && PlainText(nodes[nodeID].ipAddress)
    ensures
      var e := Engine.Apply(cfg, Engine.Fresh(cfg, now), Engine.CreateCheckpoint(Engine.DEMO_ID, "a\nb", clock));
      var (verb, segs, body) := RequestFor(Engine.DeleteCheckpoint(Engine.DEMO_ID, "a\nb")).value;
      && Through(cfg, e, nodes, Request(verb, NodeVMPath(nodeID, segs), "", body), clock) == e
      && Effect(cfg, e, AgentDispatch(verb, VMS + Tail(segs), body, clock)) != e
  {
    var e := Engine.Apply(cfg, Engine.Fresh(cfg, now), Engine.CreateCheckpoint(Engine.DEMO_ID, "a\nb", clock));
    assert Engine.List(e, Engine.DEMO_ID)[0].name == "a\nb";
    LineBreakPlain();
    ControlCharacterStops(cfg, e, nodes, nodeID, Engine.DEMO_ID, "a\nb", clock);
  }

  lemma LineBreakPlain()
    ensures PlainSegment(Engine.DEMO_ID) && PlainSegment("a\nb") && !NoControl("a\nb")
  {
    assert IsControl("a\nb"[1]);
  }

  /** Which requests the agent answers itself, and with what code; all others reach the engine. */
  lemma VMRouteRefusals(segs: seq<string>, verb: Verb, body: Body, clock: Engine.Clock)
    ensures
      var call, action := Meaning(segs, verb, body, clock), if |segs| < 2 then "" else segs[1];
      var needed := action in {"resize", "expand-disk", "clone"};
      var given := if action == "resize" then body.resize.Some?
                   else if action == "expand-disk" then body.expandGB.Some? else body.cloneName.Some?;
      && (call.Invoke? || call.Refuse?)
      && (call == Refuse(405) <==>
            || (segs == [] && verb != GET && verb != POST)
            || (|segs| == 1 && verb != GET && verb != DELETE)
            || (needed && verb != POST)
            || (action == "checkpoints" && |segs| == 2 && verb != GET && verb != POST))
      && (call == Refuse(400) <==>
            (segs == [] && verb == POST && body.create.None?) || (needed && verb == POST && !given))
      && (call == Refuse(404) <==>
            || (|segs| >= 2 && !needed && action !in {"start", "stop", "restart", "checkpoints"})
            || (action == "checkpoints" && |segs| > 2 && verb != DELETE && !(verb == POST && segs[2] == "restore")))
      && (call.Refuse? ==> call.code in {400, 404, 405})
  {
    ActionNames();
  }

  // ---------- the other proxied routes ----------

  /** Switch listing, reboot and shutdown arrive as such; the latter two only for POST. */
  lemma HostRoutesArrive(node: NodeRecord, verb: Verb, rawQuery: string, body: Body, clock: Engine.Clock)
    requires PlainText(node.ipAddress)
    ensures AgentDispatch(verb, URLPath(TargetURL(node, "switches", rawQuery)), body, clock)
              == Invoke(Engine.ListVirtualSwitches)
    ensures AgentDispatch(verb, URLPath(TargetURL(node, "host/reboot", rawQuery)), body, clock)
            == if verb == POST then HostReboot else Refuse(405)
    ensures AgentDispatch(verb, URLPath(TargetURL(node, "host/shutdown", rawQuery)), body, clock)
            == if verb == POST then HostShutdown else Refuse(405)
  {
    SwitchesArrives(node, rawQuery);
    SwitchesRoute(verb, body, clock);
    RebootArrives(node, rawQuery);
    RebootRoute(verb, body, clock);
    ShutdownArrives(node, rawQuery);
    ShutdownRoute(verb, body, clock);
  }

  lemma FirstPart(name: string, more: seq<string>)
    requires Free(name, '/')
    ensures Split(name + Tail(more), '/')[0] == name
  {
    if more == [] {
      SplitFirst(name, '/', "");
      assert name + "" == name;
    } else {
      var rest := more[0] + Tail(more[1..]);
      SplitFirst(name, '/', rest);
      ConcatAssoc(name, "/", rest);
    }
  }

  lemma SubrouteOf(nodes: map<string, NodeRecord>, nodeID: string, name: string, more: seq<string>, r: Request)
    requires PlainSegment(nodeID) && Free(name, '/') && r.path == NODES + (nodeID + ("/" + (name + Tail(more))))
    ensures NodeSubroutes(nodes, r) == NodeSubroute(nodes, nodeID, ParseNodeAction(name), name + Tail(more), r)
  {
    SegmentFree(nodeID);
    FirstPart(name, more);
    NodePath(nodeID, name + Tail(more));
    PrefixOfConcat(NODES, nodeID + ("/" + (name + Tail(more))));
  }

  /** The names of the subroutes; every other name is unknown. */
  lemma ActionsByName(name: string)
    ensures ParseNodeAction(name) == Heartbeat <==> name == "heartbeat"
    ensures ParseNodeAction(name) == Update <==> name == "update"
    ensures ParseNodeAction(name) == WakeOnLAN <==> name == "wol"
    ensures ParseNodeAction(name) == VMs <==> name == "vms"
    ensures ParseNodeAction(name) == Switches <==> name == "switches"
    ensures ParseNodeAction(name) == Reboot <==> name == "reboot"
    ensures ParseNodeAction(name) == Shutdown <==> name == "shutdown"
  {
  }

  /** Requests for a node itself: GET shows it, DELETE removes it, both answer 404 for an unknown one. */
  lemma NodeRequests(nodes: map<string, NodeRecord>, nodeID: string, r: Request)
    requires Free(nodeID, '/') && r.path == "/api/v1/nodes/" + nodeID
    ensures
      var done := NodeSubroutes(nodes, r);
      && (r.verb == GET ==> done == if nodeID in nodes then ShowNode(nodes[nodeID]) else Reply(404))
      && (r.verb == DELETE ==> done == if nodeID in nodes then RemoveNode(nodeID) else Reply(404))
      && (r.verb != GET && r.verb != DELETE ==> done == Reply(405))
  {
    PrefixOfConcat(NODES, nodeID);
    SplitFirst(nodeID, '/', "");
  }

  /** Actions that need POST. */
  predicate IsCommand(action: NodeAction) {
    action != VMs && action != Switches && action != UnknownSubroute
  }

  /** The agent's path for the actions that are proxied. */
  function ProxiedTo(action: NodeAction): Option<string> {
    match action
    case VMs => Some("vms")
    case Switches => Some("switches")
    case Reboot => Some("host/reboot")
    case Shutdown => Some("host/shutdown")
    case _ => None
  }

  /** The node is reached at all: known, and asked by POST where that is needed. */
  predicate Admitted(nodes: map<string, NodeRecord>, nodeID: string, action: NodeAction, verb: Verb) {
    nodeID in nodes && action != UnknownSubroute && (IsCommand(action) ==> verb == POST)
  }

  /** For every node and verb: what each subroute does, exactly when, and with what it answers otherwise. */
  ghost predicate ActsAs(nodes: map<string, NodeRecord>, nodeID: string, action: NodeAction, r: Request,
                         done: ControllerAction)
  {
    var admitted := Admitted(nodes, nodeID, action, r.verb);
    var online := nodeID in nodes && nodes[nodeID].status != Offline;
    && (done.RecordHeartbeat? <==> action == Heartbeat && admitted && r.body.heartbeat.Some?)
    && (done.RecordHeartbeat? ==> done.id == nodeID && r.body.heartbeat == Some((done.metrics, done.version)))
    && (done.PushUpdate? <==> action == Update && admitted && online)
    && (done.PushUpdate? ==> done.node == nodes[nodeID])
    && (done.SendWakeOnLAN? <==> action == WakeOnLAN && admitted && nodes[nodeID].hardware.macAddress != "")
    && (done.SendWakeOnLAN? ==> done.mac == nodes[nodeID].hardware.macAddress)
    && (done.Forward? <==> ProxiedTo(action).Some? && admitted && online && Carried(nodes[nodeID], [], r.rawQuery))
    && (done.Forward? ==>
          && (PlainText(nodes[nodeID].ipAddress) ==>
                GoesTo(nodes[nodeID], done.url, "/api/v1/" + ProxiedTo(action).value, r.rawQuery))
          && done.verb == r.verb && done.body == r.body)
    && !done.RemoveNode? && !done.ShowNode?
    && (done == Reply(405) <==> IsCommand(action) && r.verb != POST)
    && (done == Reply(502) <==> (action == Update || ProxiedTo(action).Some?) && admitted && !online)
    && (action == UnknownSubroute ==> done == Reply(404))
    && (action == Heartbeat && r.verb == POST && r.body.heartbeat.None? ==> done == Reply(400))
    && (nodeID !in nodes && (IsCommand(action) ==> r.verb == POST)
        && (action == Heartbeat ==> r.body.heartbeat.Some?) ==>
          done == Reply(404))
  }

  /** Whatever follows the action's name in the path; for VM paths see ProxyIsTransparent. */
  lemma NodeActions(nodes: map<string, NodeRecord>, nodeID: string, name: string, more: seq<string>, r: Request)
    requires PlainSegment(nodeID) && Free(name, '/') && (name == "vms" ==> more == [])
    requires r.path == NODES + (nodeID + ("/" + (name + Tail(more))))
    ensures ActsAs(nodes, nodeID, ParseNodeAction(name), r, NodeSubroutes(nodes, r))
  {
    var action := ParseNodeAction(name);
    ActionsByName(name);
    SubrouteOf(nodes, nodeID, name, more, r);
    assert name + "" == name;
    if nodeID in nodes && ProxiedTo(action).Some? {
      FixedNoControl(action);
      URLControl(nodes[nodeID], ProxiedTo(action).value, r.rawQuery);
      if PlainText(nodes[nodeID].ipAddress) {
        TargetGoes(nodes[nodeID], ProxiedTo(action).value, r.rawQuery);
      }
    }
  }

  lemma FixedNoControl(action: NodeAction)
    requires ProxiedTo(action).Some?
    ensures NoControl(ProxiedTo(action).value)
    ensures Free(ProxiedTo(action).value, '?') && Free(ProxiedTo(action).value, '#')
  {
  }

  lemma NotVMs(path: string)
    requires |path| > 8 && path[8] != 'v'
    ensures path != VMS && !HasPrefix(path, VMS + "/")
  {
    assert VMS[8] == 'v' && (VMS + "/")[8] == 'v';
  }

  lemma SwitchesRoute(verb: Verb, body: Body, clock: Engine.Clock)
    requires IsClean("/api/v1/" + "switches")
    ensures AgentDispatch(verb, "/api/v1/" + "switches", body, clock) == Invoke(Engine.ListVirtualSwitches)
  {
    var path := "/api/v1/" + "switches";
    NotVMs(path);
    assert path == "/api/v1/switches";
  }

  lemma SwitchesArrives(node: NodeRecord, rawQuery: string)
    requires PlainText(node.ipAddress)
    ensures URLPath(TargetURL(node, "switches", rawQuery)) == "/api/v1/" + "switches"
              && IsClean("/api/v1/" + "switches")
  {
    OneSegment("switches");
    FixedArrives(node, "switches", ["switches"], rawQuery);
  }

  lemma RebootRoute(verb: Verb, body: Body, clock: Engine.Clock)
    requires IsClean("/api/v1/" + "host/reboot")
    ensures AgentDispatch(verb, "/api/v1/" + "host/reboot", body, clock)
            == if verb == POST then HostReboot else Refuse(405)
  {
    var path := "/api/v1/" + "host/reboot";
    NotVMs(path);
    assert path == "/api/v1/host/reboot" && |path| != |"/api/v1/switches"|;
  }

  lemma RebootArrives(node: NodeRecord, rawQuery: string)
    requires PlainText(node.ipAddress)
    ensures URLPath(TargetURL(node, "host/reboot", rawQuery)) == "/api/v1/" + "host/reboot"
              && IsClean("/api/v1/" + "host/reboot")
  {
    TwoSegments("host", "reboot");
    FixedArrives(node, "host/reboot", ["host", "reboot"], rawQuery);
  }

  lemma ShutdownRoute(verb: Verb, body: Body, clock: Engine.Clock)
    requires IsClean("/api/v1/" + "host/shutdown")
    ensures AgentDispatch(verb, "/api/v1/" + "host/shutdown", body, clock)
            == if verb == POST then HostShutdown else Refuse(405)
  {
    var path := "/api/v1/" + "host/shutdown";
    NotVMs(path);
    assert path == "/api/v1/host/shutdown" && |path| != |"/api/v1/switches"| && |path| != |"/api/v1/host/reboot"|;
  }

  lemma ShutdownArrives(node: NodeRecord, rawQuery: string)
    requires PlainText(node.ipAddress)
    ensures URLPath(TargetURL(node, "host/shutdown", rawQuery)) == "/api/v1/" + "host/shutdown"
              && IsClean("/api/v1/" + "host/shutdown")
  {
    TwoSegments("host", "shutdown");
    FixedArrives(node, "host/shutdown", ["host", "shutdown"], rawQuery);
  }

  lemma OneSegment(a: string)
    ensures Tail([a]) == "/" + a
  {
    assert [a][1..] == [] && a + "" == a;
  }

  lemma TwoSegments(a: string, b: string)
    ensures Tail([a, b]) == "/" + (a + ("/" + b))
  {
    OneSegment(b);
    assert [a, b][1..] == [b];
  }

  lemma FixedArrives(node: NodeRecord, subpath: string, segs: seq<string>, rawQuery: string)
    requires PlainText(node.ipAddress)
    requires PlainSegments(segs) && segs != [] && "/" + subpath == Tail(segs)
    ensures URLPath(TargetURL(node, subpath, rawQuery)) == "/api/v1/" + subpath
    ensures IsClean("/api/v1/" + subpath)
  {
    var port := IntText(if node.agentPort == 0 then 8081 else node.agentPort);
    IntTextPlain(if node.agentPort == 0 then 8081 else node.agentPort);
    var query := if rawQuery != "" then "?" + rawQuery else "";
    var authority, path := node.ipAddress + (":" + port), "/api/v1/" + subpath;
    FixedClean(subpath, segs);
    assert PlainText(authority);
    URLPathOfTarget(authority, path, query);
  }

  lemma FixedClean(subpath: string, segs: seq<string>)
    requires PlainSegments(segs) && segs != [] && "/" + subpath == Tail(segs)
    ensures
      var path := "/api/v1/" + subpath;
      IsClean(path) && path[0] == '/' && forall i :: 0 <= i < |path| ==> path[i] != '?' && path[i] != '#'
  {
    var base := ["api", "v1"];
    assert PlainSegments(base + segs);
    TwoSegments("api", "v1");
    assert Tail(base) == "/api/v1";
    TailOfConcat(base, segs);
    CleanTail(base + segs);
    TailSafe(base + segs);
    ConcatAssoc("/api/v1", "/", subpath);
    assert "/api/v1" + "/" == "/api/v1/";
  }
}
