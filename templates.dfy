/**
 * Template rendering helpers of the FastAPI iteration (app/fasthtml.py):
 * parsing of `template#block` names, the injection of the current request and
 * the context processors into the render context, the missing-block error,
 * and the module-level `render` / `url_for` guards. Jinja itself is not
 * modelled: a template is the ordered list of its block names, and a
 * rendering is a record of what would be rendered with which context.
 */
module Templates {
  import opened Wrappers
  import opened Text

  datatype Request = Request(id: nat)

  datatype CtxValue = RequestValue(req: Request) | Opaque(id: nat)

  /** A Starlette context processor: a function of the request that yields extra context entries. */
  type Processor = Request -> map<string, CtxValue>

  datatype Template = Template(blocks: seq<string>)

  datatype Environment = Environment(templates: map<string, Template>, processors: seq<Processor>)

  datatype RenderError =
    | TemplateNotFound(path: string)
    | BlockNotFound(block: string, path: string, available: seq<string>)
    | TemplatesNotLoaded
    | NoRequestContext

  datatype Rendered =
    | FullTemplate(path: string, context: map<string, CtxValue>)
    | Block(path: string, block: string, context: map<string, CtxValue>)

  datatype UrlRef = UrlRef(request: Request, route: string, params: map<string, string>)

  /** Python truthiness of an optional block name: None and "" are both false. */
  predicate Truthy(block: Option<string>) {
    block.Some? && block.value != ""
  }

  /**
   * `template_name.split("#", 1)` when the name holds a `#`, otherwise the
   * whole name with the `block` argument.
   */
  function ParseTemplateName(name: string, block: Option<string>): (r: (string, Option<string>))
    ensures '#' in name ==> r.1.Some? && name == r.0 + "#" + r.1.value && '#' !in r.0
    ensures '#' !in name ==> r.0 == name && r.1 == block
  {
    match SplitFirst(name, '#')
    case Some((path, blockName)) => (path, Some(blockName))
    case None => (name, block)
  }

  /** The block named after the first `#` wins over the `block` argument, and may itself contain `#`. */
  lemma HashNameIgnoresBlockArgument(path: string, blockName: string, block: Option<string>)
    requires '#' !in path
    ensures ParseTemplateName(path + "#" + blockName, block) == (path, Some(blockName))
  {
    SplitFirstUnique(path + "#" + blockName, '#', path, blockName);
  }

  /** "page.html#" names an empty block, which is falsy: the whole template is rendered. */
  lemma TrailingHashRendersFullTemplate(path: string, block: Option<string>)
    requires '#' !in path
    ensures !Truthy(ParseTemplateName(path + "#", block).1)
  {
    HashNameIgnoresBlockArgument(path, "", block);
    assert path + "#" + "" == path + "#";
  }

  /** The context after `setdefault("request", ...)` and the processors' `update`s, in order. */
  function WithProcessors(items: map<string, CtxValue>, processors: seq<Processor>, request: Request): map<string, CtxValue>
  {
    if processors == [] then items
    else WithProcessors(items, processors[..|processors| - 1], request) + processors[|processors| - 1](request)
  }

  function SetDefault(items: map<string, CtxValue>, key: string, value: CtxValue): (r: map<string, CtxValue>)
    ensures key in r && r[key] == (if key in items then items[key] else value)
    ensures forall k :: k in items ==> k in r && r[k] == items[k]
    ensures r.Keys == items.Keys + {key}
  {
    if key in items then items else items[key := value]
  }

  /** The keys of the merged context: the original keys and every key some processor yields. */
  lemma {:induction false} MergedKeys(items: map<string, CtxValue>, processors: seq<Processor>, request: Request, key: string)
    ensures key in WithProcessors(items, processors, request) <==>
      (key in items || exists j :: 0 <= j < |processors| && key in processors[j](request))
    decreases |processors|
  {
    if processors != [] {
      var n := |processors| - 1;
      MergedKeys(items, processors[..n], request, key);
      assert forall j :: 0 <= j < n ==> processors[..n][j] == processors[j];
      if key in WithProcessors(items, processors, request) && key !in items && key !in processors[n](request) {
        var j :| 0 <= j < n && key in processors[..n][j](request);
      }
    }
  }

  /** A key that no processor yields keeps the value it had before the merge. */
  lemma {:induction false} UntouchedKeyKept(items: map<string, CtxValue>, processors: seq<Processor>, request: Request, key: string)
    requires key in items
    requires forall j :: 0 <= j < |processors| ==> key !in processors[j](request)
    ensures key in WithProcessors(items, processors, request)
    ensures WithProcessors(items, processors, request)[key] == items[key]
    decreases |processors|
  {
    if processors != [] {
      var n := |processors| - 1;
      assert forall j :: 0 <= j < n ==> processors[..n][j] == processors[j];
      UntouchedKeyKept(items, processors[..n], request, key);
    }
  }

  /** A key that processor `j` yields and no later processor yields ends with processor `j`'s value. */
  lemma {:induction false} LastProcessorWins(items: map<string, CtxValue>, processors: seq<Processor>, request: Request, key: string, j: nat)
    requires j < |processors| && key in processors[j](request)
    requires forall l :: j < l < |processors| ==> key !in processors[l](request)
    ensures key in WithProcessors(items, processors, request)
    ensures WithProcessors(items, processors, request)[key] == processors[j](request)[key]
    decreases |processors|
  {
    var n := |processors| - 1;
    if j < n {
      assert forall l :: 0 <= l < n ==> processors[..n][l] == processors[l];
      LastProcessorWins(items, processors[..n], request, key, j);
    }
  }

  /** A render context: a dictionary that rendering fills in place. */
  class ContextDict {
    var items: map<string, CtxValue>

    constructor (items: map<string, CtxValue>)
      ensures this.items == items
    {
      this.items := items;
    }
  }

  /**
   * The request injection step of `Jinja2Templates.render`: without a current
   * request nothing happens; with one, "request" is set unless present, then
   * each processor's result is merged in order.
   */
  method InjectRequest(ctx: ContextDict, request: Option<Request>, processors: seq<Processor>)
    modifies ctx
    ensures request.None? ==> ctx.items == old(ctx.items)
    ensures request.Some? ==>
      ctx.items == WithProcessors(SetDefault(old(ctx.items), "request", RequestValue(request.value)), processors, request.value)
  {
    if request.Some? {
      var req := request.value;
      ctx.items := SetDefault(ctx.items, "request", RequestValue(req));
      var base := ctx.items;
      for i := 0 to |processors|
        invariant ctx.items == WithProcessors(base, processors[..i], req)
      {
        assert processors[..i + 1][..i] == processors[..i];
        ctx.items := ctx.items + processors[i](req);
      }
      assert processors[..|processors|] == processors;
    }
  }

  /**
   * The dictionary `render` fills from `items`: with a current request,
   * "request" is set unless present and each processor's result is merged in
   * order; without one it is `items` unchanged.
   */
  function Injected(items: map<string, CtxValue>, request: Option<Request>, processors: seq<Processor>): map<string, CtxValue> {
    if request.None? then items
    else WithProcessors(SetDefault(items, "request", RequestValue(request.value)), processors, request.value)
  }

  /** The result of `Jinja2Templates.render` for a caller's dictionary holding `items` (empty for None). */
  function RenderResult(env: Environment, name: string, items: map<string, CtxValue>, block: Option<string>, request: Option<Request>)
    : Result<Rendered, RenderError>
  {
    var (path, blockName) := ParseTemplateName(name, block);
    if path !in env.templates then Err(TemplateNotFound(path))
    else if Truthy(blockName) && blockName.value !in env.templates[path].blocks then
      Err(BlockNotFound(blockName.value, path, env.templates[path].blocks))
    else if Truthy(blockName) then Ok(Block(path, blockName.value, Injected(items, request, env.processors)))
    else Ok(FullTemplate(path, Injected(items, request, env.processors)))
  }

  /**
   * The caller's dictionary after `Jinja2Templates.render`: once the template
   * is found, a non-empty dictionary has been filled in place, even when the
   * block is then not found; an empty one was replaced by a fresh dictionary
   * and keeps its contents.
   */
  function CallerAfter(env: Environment, name: string, items: map<string, CtxValue>, block: Option<string>, request: Option<Request>)
    : map<string, CtxValue>
  {
    if ParseTemplateName(name, block).0 in env.templates && items != map[] then Injected(items, request, env.processors)
    else items
  }

  /**
   * A failed block lookup still leaves a non-empty caller dictionary filled:
   * its old keys, "request" and every key a processor yields are present.
   */
  lemma BlockNotFoundFillsCaller(env: Environment, name: string, items: map<string, CtxValue>, block: Option<string>,
                                 request: Request, key: string)
    requires items != map[]
    requires RenderResult(env, name, items, block, Some(request)).Err?
    requires RenderResult(env, name, items, block, Some(request)).error.BlockNotFound?
    ensures key in CallerAfter(env, name, items, block, Some(request)) <==>
      key in items || key == "request" || exists j :: 0 <= j < |env.processors| && key in env.processors[j](request)
  {
    MergedKeys(SetDefault(items, "request", RequestValue(request)), env.processors, request, key);
  }

  /**
   * `Jinja2Templates.render`. `context` is the caller's dictionary (null for
   * None). `context or {}` keeps a non-empty caller dictionary, so that
   * dictionary is the one filled in; an empty or absent one is replaced by a
   * fresh dictionary.
   */
  method RenderTemplate(env: Environment, name: string, context: ContextDict?, block: Option<string>, request: Option<Request>)
    returns (r: Result<Rendered, RenderError>)
    modifies context
    ensures r == RenderResult(env, name, old(if context == null then map[] else context.items), block, request)
    ensures context != null ==> context.items == CallerAfter(env, name, old(context.items), block, request)
    ensures var (path, blockName) := ParseTemplateName(name, block);
      if path !in env.templates then
        r == Err(TemplateNotFound(path)) && (context == null || context.items == old(context.items))
      else if Truthy(blockName) && blockName.value !in env.templates[path].blocks then
        r == Err(BlockNotFound(blockName.value, path, env.templates[path].blocks))
      else if Truthy(blockName) then
        r.Ok? && r.value == Block(path, blockName.value, r.value.context)
      else
        r.Ok? && r.value == FullTemplate(path, r.value.context)
    ensures r.Ok? ==> var base := if context != null && old(context.items) != map[] then old(context.items) else map[];
      r.value.context == Injected(base, request, env.processors)
    ensures r.Ok? && context != null && old(context.items) != map[] ==> context.items == r.value.context
  {
    var (path, blockName) := ParseTemplateName(name, block);
    if path !in env.templates {
      return Err(TemplateNotFound(path));
    }
    var template := env.templates[path];
    var ctx: ContextDict;
    if context != null && context.items != map[] {
      ctx := context;
    } else {
      ctx := new ContextDict(map[]);
    }
    InjectRequest(ctx, request, env.processors);
    if Truthy(blockName) {
      if blockName.value !in template.blocks {
        return Err(BlockNotFound(blockName.value, path, template.blocks));
      }
      return Ok(Block(path, blockName.value, ctx.items));
    }
    return Ok(FullTemplate(path, ctx.items));
  }

  /**
   * The module's global state: `_templates`, assigned by `add_templates`, and
   * the `_current_request` context variable set by the request middleware.
   */
  class TemplateRuntime {
    var templates: Option<Environment>
    var currentRequest: Option<Request>

    constructor ()
      ensures templates == None && currentRequest == None
    {
      templates := None;
      currentRequest := None;
    }

    /** `FastHTML.add_templates`: stores the environment globally for `render`. */
    method AddTemplates(env: Environment)
      modifies this`templates
      ensures templates == Some(env)
    {
      templates := Some(env);
    }

    /** The module-level `render`: fails with RuntimeError until templates are loaded. */
    method Render(name: string, context: ContextDict?, block: Option<string>) returns (r: Result<Rendered, RenderError>)
      modifies context
      ensures templates.None? ==> r == Err(TemplatesNotLoaded) && (context == null || context.items == old(context.items))
      ensures templates.Some? ==> r != Err(TemplatesNotLoaded)
      ensures templates.Some? ==>
        r == RenderResult(templates.value, name, old(if context == null then map[] else context.items), block, currentRequest)
      ensures templates.Some? && context != null ==>
        context.items == CallerAfter(templates.value, name, old(context.items), block, currentRequest)
    {
      if templates.None? {
        return Err(TemplatesNotLoaded);
      }
      r := RenderTemplate(templates.value, name, context, block, currentRequest);
    }

    /** The module-level `url_for`: fails with RuntimeError outside request handling. */
    method UrlFor(route: string, params: map<string, string>) returns (r: Result<UrlRef, RenderError>)
      ensures currentRequest.None? <==> r == Err(NoRequestContext)
      ensures currentRequest.Some? ==> r == Ok(UrlRef(currentRequest.value, route, params))
    {
      if currentRequest.None? {
        return Err(NoRequestContext);
      }
      return Ok(UrlRef(currentRequest.value, route, params));
    }
  }
}
