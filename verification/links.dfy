/**
 Links: the `Link` pseudo-type hands a URL to the first registered link class that
 claims it.  A class's `return_type(urlparse(url))` is modelled as one function of
 the URL, returning the type it would produce or None.
 */
module Links {
  import opened Results
  import opened Types
  import opened VariableTasks

  datatype LinkClass = LinkClass(name: string, claim: string -> Option<TypeRef>)

  /** `register_link`: the class goes to the end of the list and is returned unchanged. */
  function RegisterLink(classes: seq<LinkClass>, c: LinkClass): (r: (seq<LinkClass>, LinkClass))
    ensures |r.0| == |classes| + 1
    ensures forall i :: 0 <= i < |classes| ==> r.0[i] == classes[i]
    ensures r.0[|classes|] == c && r.1 == c
  {
    (classes + [c], c)
  }

  predicate Claims(c: LinkClass, url: string)
  {
    c.claim(url).Some?
  }

  /** The first class from index `i` on that claims `url`. */
  function FirstClaim(classes: seq<LinkClass>, url: string, i: nat): (r: Option<nat>)
    requires i <= |classes|
    ensures r.Some? ==> (i <= r.value < |classes| && Claims(classes[r.value], url)
      && forall j :: i <= j < r.value ==> !Claims(classes[j], url))
    ensures r.None? ==> forall j :: i <= j < |classes| ==> !Claims(classes[j], url)
    decreases |classes| - i
  {
    if i == |classes| then None
    else if Claims(classes[i], url) then Some(i)
    else FirstClaim(classes, url, i + 1)
  }

  /** A claimed link: the position of the claiming class and the type it returns. */
  datatype LinkMatch = LinkMatch(index: nat, returnType: TypeRef)

  /**
   `Link._link_type`: the first class in registration order whose `return_type` is
   truthy, with that type; a URL nobody claims raises ValueError.
   */
  function LinkType(classes: seq<LinkClass>, url: string): (r: Result<LinkMatch>)
    ensures r.Ok? ==> r.value.index < |classes| && classes[r.value.index].claim(url) == Some(r.value.returnType)
    ensures r.Ok? ==> forall j :: 0 <= j < r.value.index ==> !Claims(classes[j], url)
    ensures r.Err? <==> forall j :: 0 <= j < |classes| ==> !Claims(classes[j], url)
    ensures r.Err? ==> r.error == ValueError("Don't know what to do with link " + url)
  {
    match FirstClaim(classes, url, 0)
    case Some(i) => Ok(LinkMatch(i, classes[i].claim(url).value))
    case None => Err(ValueError("Don't know what to do with link " + url))
  }

  /** Registering a class after others never changes which class an already claimed URL goes to. */
  lemma RegisterKeepsEarlierClaims(classes: seq<LinkClass>, c: LinkClass, url: string)
    requires LinkType(classes, url).Ok?
    ensures LinkType(RegisterLink(classes, c).0, url) == LinkType(classes, url)
  {
    var m := LinkType(classes, url).value;
    var cs := RegisterLink(classes, c).0;
    assert cs[m.index] == classes[m.index];
  }

  /**
   `Link.load_task`: a `_LoadLinkTask` whose loader is the claiming class and whose
   return type is the type it claimed with; an unclaimed URL fails at construction.
   */
  function LinkLoadTask(reg: Registry, classes: seq<LinkClass>, url: string): (r: Result<LoadTask>)
    ensures LinkType(classes, url).Err? ==> r == Err(LinkType(classes, url).error)
    ensures LinkType(classes, url).Ok? ==>
      (var m := LinkType(classes, url).value;
       r == NewLoadTask(reg, m.returnType, LinkLoad(classes[m.index].name), url))
  {
    var m :- LinkType(classes, url);
    NewLoadTask(reg, m.returnType, LinkLoad(classes[m.index].name), url)
  }
}
