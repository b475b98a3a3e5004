/**
 The configuration file: a YAML document read by path, and the index of clouds by
 public name built when it is loaded.  Loading names every cloud after its key, in
 the document itself, so later reads of the clouds see the names.
 */
module Configuration {
  import opened Results
  import opened Dicts

  /** A loaded YAML document (mappings with string keys). */
  datatype Yaml =
    | YNull
    | YStr(s: string)
    | YInt(i: int)
    | YBool(b: bool)
    | YList(items: seq<Yaml>)
    | YMap(d: Dict<string, Yaml>)

  /** The Python type name of a loaded value, as error messages show it. */
  function TypeName(y: Yaml): string
  {
    match y
    case YNull => "NoneType"
    case YStr(_) => "str"
    case YInt(_) => "int"
    case YBool(_) => "bool"
    case YList(_) => "list"
    case YMap(_) => "dict"
  }

  /**
   `Config.get(*path)`: follow the keys one by one; a missing key reads as None, and
   None stops the walk.  Any other value has no `get`.
   */
  function Get(v: Yaml, path: seq<string>): (r: Result<Yaml>)
    ensures |path| == 0 ==> r == Ok(v)
    ensures |path| > 0 && v.YNull? ==> r == Ok(YNull)
    ensures |path| > 0 && v.YMap? && !v.d.Has(path[0]) ==> r == Ok(YNull)
    ensures |path| > 0 && !v.YNull? && !v.YMap? ==> r == Err(AttributeError("'" + TypeName(v) + "' object has no attribute 'get'"))
    decreases |path|
  {
    if |path| == 0 then Ok(v)
    else
      match v
      case YNull => Ok(YNull)
      case YMap(d) => Get(if d.Has(path[0]) then d.entries[path[0]] else YNull, path[1..])
      case _ => Err(AttributeError("'" + TypeName(v) + "' object has no attribute 'get'"))
  }

  /** Reading a path in two steps is reading it at once. */
  lemma {:induction false} GetAppend(v: Yaml, p: seq<string>, q: seq<string>)
    ensures Get(v, p + q) == match Get(v, p) case Ok(w) => Get(w, q) case Err(e) => Err(e)
    decreases |p|
  {
    if |p| == 0 {
      assert p + q == q;
    } else {
      assert (p + q)[0] == p[0] && (p + q)[1..] == p[1..] + q;
      match v
      case YNull =>
        assert Get(YNull, q) == Ok(YNull) || |q| == 0;
      case YMap(d) =>
        GetAppend(if d.Has(p[0]) then d.entries[p[0]] else YNull, p[1..], q);
      case _ =>
    }
  }

  /** The items of a list used as public names: strings are names; a list or mapping cannot be a key. */
  function ListNames(items: seq<Yaml>): (r: Result<seq<string>>)
    ensures r.Ok? ==> forall p :: p in r.value <==> YStr(p) in items
    ensures r.Ok? <==> forall i :: 0 <= i < |items| ==> !items[i].YList? && !items[i].YMap?
    decreases |items|
  {
    if |items| == 0 then Ok([])
    else if items[0].YList? || items[0].YMap? then Err(TypeError("unhashable type: '" + TypeName(items[0]) + "'"))
    else
      var rest :- ListNames(items[1..]);
      assert items == [items[0]] + items[1..];
      Ok((if items[0].YStr? then [items[0].s] else []) + rest)
  }

  /** `for p in cloud['public']`: a list's items, a string's characters, a mapping's keys. */
  function PublicNames(public: Yaml): (r: Result<seq<string>>)
    ensures public.YList? ==> r == ListNames(public.items)
    ensures public.YStr? ==> r.Ok? && |r.value| == |public.s| && forall i :: 0 <= i < |public.s| ==> r.value[i] == [public.s[i]]
    ensures public.YMap? ==> r == Ok(public.d.keys)
    ensures public.YNull? || public.YInt? || public.YBool? ==>
      r == Err(TypeError("'" + TypeName(public) + "' object is not iterable"))
  {
    match public
    case YList(items) => ListNames(items)
    case YStr(s) => Ok(seq(|s|, i requires 0 <= i < |s| => [s[i]]))
    case YMap(d) => Ok(d.keys)
    case _ => Err(TypeError("'" + TypeName(public) + "' object is not iterable"))
  }

  /** `cloud['name'] = name`: only a mapping takes a string key. */
  function NameCloud(name: string, cloud: Yaml): (r: Result<Dict<string, Yaml>>)
    ensures r.Ok? <==> cloud.YMap?
    ensures r.Ok? ==> r.value == cloud.d.Put("name", YStr(name))
  {
    match cloud
    case YMap(c) => Ok(c.Put("name", YStr(name)))
    case YList(_) => Err(TypeError("list indices must be integers or slices, not str"))
    case _ => Err(TypeError("'" + TypeName(cloud) + "' object does not support item assignment"))
  }

  /** `cloud['public']`, a required key. */
  function CloudPublic(cloud: Dict<string, Yaml>): (r: Result<seq<string>>)
    ensures !cloud.Has("public") ==> r == Err(KeyError("public"))
    ensures cloud.Has("public") ==> r == PublicNames(cloud.entries["public"])
  {
    if cloud.Has("public") then PublicNames(cloud.entries["public"]) else Err(KeyError("public"))
  }

  /** `get('servers', 'clouds').items()`: the clouds mapping. */
  function CloudsNode(root: Yaml): (r: Result<Dict<string, Yaml>>)
    ensures r.Ok? <==> Get(root, ["servers", "clouds"]).Ok? && Get(root, ["servers", "clouds"]).value.YMap?
    ensures r.Ok? ==> r.value == Get(root, ["servers", "clouds"]).value.d
  {
    var c :- Get(root, ["servers", "clouds"]);
    if c.YMap? then Ok(c.d) else Err(AttributeError("'" + TypeName(c) + "' object has no attribute 'items'"))
  }

  /** The `j`-th cloud after naming it, and its public names. */
  function Cloud(clouds: Dict<string, Yaml>, j: nat): (r: Result<(Dict<string, Yaml>, seq<string>)>)
    requires clouds.Valid() && j < |clouds.keys|
  {
    var name := clouds.keys[j];
    var named :- NameCloud(name, clouds.entries[name]);
    var ps :- CloudPublic(named);
    Ok((named, ps))
  }

  /** Every name maps to `v`; other entries are kept. */
  function PutAll(index: Dict<string, Yaml>, names: seq<string>, v: Yaml): (r: Dict<string, Yaml>)
    ensures index.Valid() ==> r.Valid()
    ensures forall p :: p in names ==> r.Has(p) && r.entries[p] == v
    ensures forall p :: p !in names ==> (r.Has(p) <==> index.Has(p)) && (index.Has(p) ==> r.entries[p] == index.entries[p])
    decreases |names|
  {
    if |names| == 0 then index else PutAll(index.Put(names[0], v), names[1..], v)
  }

  /** The clouds mapping replaced inside `servers`. */
  function WithClouds(root: Yaml, clouds: Dict<string, Yaml>): Yaml
  {
    match root
    case YMap(rd) =>
      if rd.Has("servers") && rd.entries["servers"].YMap? then
        var sd := rd.entries["servers"].d;
        YMap(rd.Put("servers", YMap(sd.Put("clouds", YMap(clouds)))))
      else root
    case _ => root
  }

  /** Where the clouds mapping is found, it can be replaced and read back. */
  lemma WithCloudsGet(root: Yaml, clouds: Dict<string, Yaml>)
    requires CloudsNode(root).Ok?
    ensures Get(WithClouds(root, clouds), ["servers", "clouds"]) == Ok(YMap(clouds))
  {
    assert ["servers", "clouds"][1..] == ["clouds"];
    assert ["clouds"][1..] == [];
  }

  datatype Config = Config(root: Yaml, index: Dict<string, Yaml>)

  /** A cloud after naming it, with its public names. */
  type Listing = (Dict<string, Yaml>, seq<string>)

  /** The listings of all clouds, when every cloud can be named and indexed. */
  function Listings(clouds: Dict<string, Yaml>): (ls: seq<Listing>)
    requires clouds.Valid() && forall j :: 0 <= j < |clouds.keys| ==> Cloud(clouds, j).Ok?
    ensures |ls| == |clouds.keys| && forall j :: 0 <= j < |ls| ==> Ok(ls[j]) == Cloud(clouds, j)
  {
    seq(|clouds.keys|, j requires 0 <= j < |clouds.keys| => Cloud(clouds, j).value)
  }

  /**
   `index` indexes the listed clouds: it holds exactly their public names, and each
   name maps to the last cloud that lists it.
   */
  ghost predicate Indexes(listed: seq<Listing>, index: Dict<string, Yaml>)
  {
    && (forall p :: index.Has(p) <==> exists j :: 0 <= j < |listed| && p in listed[j].1)
    && (forall p, j :: 0 <= j < |listed| && p in listed[j].1
          && (forall j' :: j < j' < |listed| ==> p !in listed[j'].1)
          ==> index.Has(p) && index.entries[p] == YMap(listed[j].0))
  }

  /** Indexing one more cloud overwrites exactly its public names. */
  lemma IndexStep(listed: seq<Listing>, index: Dict<string, Yaml>, next: Listing)
    requires Indexes(listed, index)
    ensures Indexes(listed + [next], PutAll(index, next.1, YMap(next.0)))
  {
    var all := listed + [next];
    var after := PutAll(index, next.1, YMap(next.0));
    forall p
      ensures after.Has(p) <==> exists j :: 0 <= j < |all| && p in all[j].1
    {
      if p in next.1 {
        assert p in all[|listed|].1;
      } else if after.Has(p) {
        var j :| 0 <= j < |listed| && p in listed[j].1;
        assert p in all[j].1;
      } else {
        forall j | 0 <= j < |all| ensures p !in all[j].1 {
          if j < |listed| { assert all[j] == listed[j]; }
        }
      }
    }
    forall p, j | 0 <= j < |all| && p in all[j].1 && (forall j' :: j < j' < |all| ==> p !in all[j'].1)
      ensures after.Has(p) && after.entries[p] == YMap(all[j].0)
    {
      if j < |listed| {
        assert p !in all[|listed|].1;
        assert all[j] == listed[j];
        forall j' | j < j' < |listed| ensures p !in listed[j'].1 {
          assert all[j'] == listed[j'];
        }
      }
    }
  }

  /** The index built from the listed clouds, in order. */
  function IndexOf(listed: seq<Listing>): Dict<string, Yaml>
  {
    if |listed| == 0 then Empty()
    else
      var last := listed[|listed| - 1];
      PutAll(IndexOf(listed[..|listed| - 1]), last.1, YMap(last.0))
  }

  lemma {:induction false} IndexOfIndexes(listed: seq<Listing>)
    ensures IndexOf(listed).Valid() && Indexes(listed, IndexOf(listed))
  {
    if |listed| != 0 {
      var init := listed[..|listed| - 1];
      IndexOfIndexes(init);
      IndexStep(init, IndexOf(init), listed[|listed| - 1]);
      assert init + [listed[|listed| - 1]] == listed;
    }
  }

  /**
   The loop of `Config.__init__` over the clouds: each cloud's public names map to
   it, a later cloud overwriting an earlier one; the first cloud that cannot be
   named or indexed aborts with its error.
   */
  method IndexClouds(clouds: Dict<string, Yaml>) returns (r: Result<Dict<string, Yaml>>)
    requires clouds.Valid()
    ensures r.Ok? <==> forall j :: 0 <= j < |clouds.keys| ==> Cloud(clouds, j).Ok?
    ensures r.Err? ==> exists j :: 0 <= j < |clouds.keys| && Cloud(clouds, j).Err? && r.error == Cloud(clouds, j).error
    ensures r.Ok? ==> r.value.Valid() && Indexes(Listings(clouds), r.value)
  {
    var n := |clouds.keys|;
    var listed: seq<Listing> := [];
    var k := 0;
    while k < n
      invariant 0 <= k <= n && |listed| == k
      invariant forall j :: 0 <= j < k ==> Cloud(clouds, j) == Ok(listed[j])
    {
      var cloud := Cloud(clouds, k);
      if cloud.Err? {
        return Err(cloud.error);
      }
      listed := listed + [cloud.value];
      k := k + 1;
    }
    assert listed == Listings(clouds);
    IndexOfIndexes(listed);
    r := Ok(IndexOf(listed));
  }

  /**
   `Config.__init__` after the document is read: the clouds are indexed by their
   public names and every cloud gets its key as `name`.
   */
  method Load(root: Yaml) returns (r: Result<Config>)
    requires CloudsNode(root).Ok? ==> CloudsNode(root).value.Valid()
    ensures CloudsNode(root).Err? ==> r == Err(CloudsNode(root).error)
    ensures CloudsNode(root).Ok? ==>
      var clouds := CloudsNode(root).value;
      && (r.Ok? <==> forall j :: 0 <= j < |clouds.keys| ==> Cloud(clouds, j).Ok?)
      && (r.Err? ==> exists j :: 0 <= j < |clouds.keys| && Cloud(clouds, j).Err? && r.error == Cloud(clouds, j).error)
      && (r.Ok? ==> Indexes(Listings(clouds), r.value.index)
                    && r.value.root == WithClouds(root, NamedClouds(clouds)))
  {
    var clouds :- CloudsNode(root);
    var index :- IndexClouds(clouds);
    r := Ok(Config(WithClouds(root, NamedClouds(clouds)), index));
  }

  /** The clouds mapping after loading: each cloud named after its key. */
  function NamedClouds(clouds: Dict<string, Yaml>): (r: Dict<string, Yaml>)
    requires clouds.Valid()
    ensures r.Valid() && r.keys == clouds.keys
    ensures forall j :: 0 <= j < |clouds.keys| && Cloud(clouds, j).Ok? ==>
      r.entries[clouds.keys[j]] == YMap(Cloud(clouds, j).value.0)
  {
    var entries := map k | k in clouds.entries ::
      if clouds.entries[k].YMap? then YMap(clouds.entries[k].d.Put("name", YStr(k))) else clouds.entries[k];
    Dict(clouds.keys, entries)
  }

  /** `get_cloud`: the cloud indexed under a public name, or KeyError. */
  function GetCloud(c: Config, public: string): (r: Result<Yaml>)
    ensures r.Ok? <==> c.index.Has(public)
    ensures r.Ok? ==> r.value == c.index.entries[public]
    ensures r.Err? ==> r.error == KeyError(public)
  {
    if c.index.Has(public) then Ok(c.index.entries[public]) else Err(KeyError(public))
  }

  /** `get_clouds`: the values of the clouds mapping, in order. */
  function GetClouds(c: Config): (r: Result<seq<Yaml>>)
  {
    var node :- Get(c.root, ["servers", "clouds"]);
    if !node.YMap? then Err(AttributeError("'" + TypeName(node) + "' object has no attribute 'values'"))
    else
      var d := node.d;
      Ok(seq(|d.keys|, i requires 0 <= i < |d.keys| => if d.keys[i] in d.entries then d.entries[d.keys[i]] else YNull))
  }

  /**
   After a load, `get_clouds` lists every cloud in document order, each named after
   its key.
   */
  lemma LoadedClouds(root: Yaml, c: Config)
    requires CloudsNode(root).Ok? && CloudsNode(root).value.Valid()
    requires c.root == WithClouds(root, NamedClouds(CloudsNode(root).value))
    requires forall j :: 0 <= j < |CloudsNode(root).value.keys| ==> Cloud(CloudsNode(root).value, j).Ok?
    ensures var clouds := CloudsNode(root).value;
      && GetClouds(c).Ok? && |GetClouds(c).value| == |clouds.keys|
      && forall j :: 0 <= j < |clouds.keys| ==>
           && GetClouds(c).value[j] == YMap(Cloud(clouds, j).value.0)
           && Cloud(clouds, j).value.0.Has("name")
           && Cloud(clouds, j).value.0.entries["name"] == YStr(clouds.keys[j])
  {
    var clouds := CloudsNode(root).value;
    var named := NamedClouds(clouds);
    WithCloudsGet(root, named);
    assert GetClouds(c) == Ok(seq(|named.keys|, i requires 0 <= i < |named.keys| =>
      if named.keys[i] in named.entries then named.entries[named.keys[i]] else YNull));
    forall j | 0 <= j < |clouds.keys|
      ensures Cloud(clouds, j).value.0.Has("name") && Cloud(clouds, j).value.0.entries["name"] == YStr(clouds.keys[j])
    {
      CloudNamed(clouds, j);
    }
  }

  /** A cloud that can be named carries its key as `name`. */
  lemma CloudNamed(clouds: Dict<string, Yaml>, j: nat)
    requires clouds.Valid() && j < |clouds.keys| && Cloud(clouds, j).Ok?
    ensures Cloud(clouds, j).value.0.Has("name") && Cloud(clouds, j).value.0.entries["name"] == YStr(clouds.keys[j])
  {
    var name := clouds.keys[j];
    assert Cloud(clouds, j).value.0 == clouds.entries[name].d.Put("name", YStr(name));
  }

  /**
   After a load, `get_cloud` finds a name exactly when some cloud lists it as public,
   and then gives the last such cloud, named after its key.
   */
  lemma LoadedLookup(clouds: Dict<string, Yaml>, c: Config, public: string, j: nat)
    requires clouds.Valid() && forall i :: 0 <= i < |clouds.keys| ==> Cloud(clouds, i).Ok?
    requires Indexes(Listings(clouds), c.index)
    ensures GetCloud(c, public).Ok? <==> exists i :: 0 <= i < |clouds.keys| && public in Cloud(clouds, i).value.1
    ensures j < |clouds.keys| && public in Cloud(clouds, j).value.1
            && (forall i :: j < i < |clouds.keys| ==> public !in Cloud(clouds, i).value.1)
            ==> GetCloud(c, public) == Ok(YMap(Cloud(clouds, j).value.0))
  {
    var ls := Listings(clouds);
    if c.index.Has(public) {
      var i :| 0 <= i < |ls| && public in ls[i].1;
      assert public in Cloud(clouds, i).value.1;
    }
    if exists i :: 0 <= i < |clouds.keys| && public in Cloud(clouds, i).value.1 {
      var i :| 0 <= i < |clouds.keys| && public in Cloud(clouds, i).value.1;
      assert public in ls[i].1;
    }
    if j < |clouds.keys| && public in Cloud(clouds, j).value.1
       && (forall i :: j < i < |clouds.keys| ==> public !in Cloud(clouds, i).value.1) {
      assert public in ls[j].1;
      forall i | j < i < |ls| ensures public !in ls[i].1 {
        assert ls[i] == Cloud(clouds, i).value;
      }
    }
  }
}
