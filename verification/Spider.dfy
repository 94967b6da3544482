/** Requests, tasks and the two request functions the engine relies on (spider/request.go, spider/task.go). */
module Spider {

  datatype Option<+T> = None | Some(value: T)

  const MAX_INT64 := 0x7fff_ffff_ffff_ffff

  datatype Task = Task(name: string, reload: bool, maxDepth: int)

  datatype Request = Request(
    task: Task, url: string, verb: string, depth: int, priority: int, ruleName: string)
  {
    /** True when Go's Check returns no error. */
    predicate Check() {
      depth <= task.maxDepth
    }

    /** The dedup key: a digest of URL + Method. The digest is any function of the text. */
    function Unique(digest: string -> string): string {
      digest(url + verb)
    }
  }

  /** Go's int64 addition of one. */
  function NextDepth(depth: int): int {
    if depth == MAX_INT64 then -MAX_INT64 - 1 else depth + 1
  }

  /** What every parse function of the repository does with the requests it returns. */
  predicate IsChild(parent: Request, child: Request) {
    child.task == parent.task && child.depth == NextDepth(parent.depth)
  }

  /** A child has its parent's task and lies one level deeper, or at the smallest int64 below the largest. */
  lemma {:induction false} ChildIsOneDeeper(parent: Request, child: Request)
    ensures IsChild(parent, child) <==>
            && child.task == parent.task
            && if parent.depth == 0x7fff_ffff_ffff_ffff then child.depth == -0x8000_0000_0000_0000
               else child.depth == parent.depth + 1
  {
  }

  /** With a digest that confuses no two texts, two requests share their key exactly when URL and Method
      read the same one after the other. So on one URL the methods decide, and with one method the URLs. */
  lemma {:induction false} KeySeparates(digest: string -> string, r: Request, s: Request)
    requires forall a, b :: digest(a) == digest(b) ==> a == b
    ensures r.Unique(digest) == s.Unique(digest) <==> r.url + r.verb == s.url + s.verb
    ensures r.url == s.url ==> (r.Unique(digest) == s.Unique(digest) <==> r.verb == s.verb)
    ensures r.verb == s.verb ==> (r.Unique(digest) == s.Unique(digest) <==> r.url == s.url)
  {
    var a, b := r.url + r.verb, s.url + s.verb;
    if a == b && r.url == s.url {
      assert r.verb == a[|r.url|..] && s.verb == b[|r.url|..];
    }
    if a == b && r.verb == s.verb {
      assert r.url == a[..|a| - |r.verb|] && s.url == b[..|b| - |s.verb|];
    }
  }

  /** Context.ParseJSReg: `matches` are the first capture groups the regular expression found. */
  method ParseJSReg(req: Request, name: string, matches: seq<string>) returns (requests: seq<Request>)
    ensures |requests| == |matches|
    ensures forall i :: 0 <= i < |requests| ==>
              && IsChild(req, requests[i]) && requests[i].task == req.task
              && requests[i].depth ==
                 (if req.depth == 0x7fff_ffff_ffff_ffff then -0x8000_0000_0000_0000 else req.depth + 1)
              && requests[i].url == matches[i] && requests[i].verb == "GET"
              && requests[i].ruleName == name && requests[i].priority == 0
  {
    requests := [];
    for i := 0 to |matches|
      invariant |requests| == i
      invariant forall k :: 0 <= k < i ==>
                  requests[k] == Request(req.task, matches[k], "GET", NextDepth(req.depth), 0, name)
    {
      requests := requests + [Request(req.task, matches[i], "GET", NextDepth(req.depth), 0, name)];
    }
  }
}
