/** `NutResolver.swift`: finding the compiled commands of a view by name.
    A template `<name with dots as slashes>.nut` is compiled into an artifact
    `<name>.fruit`; an artifact is trusted only while it is newer than its
    template, and compiled views are kept in a cache keyed by view name. The
    file system is two maps (templates under `NutConfig.nuts`, artifacts under
    `NutConfig.fruits`), the artifact's bytes are the `Json` value of `Codec`,
    and the clock is a parameter. */
module Resolver {
  import opened Wrappers
  import opened Commands
  import opened Codec
  import opened ParseSpec
  import Parser

  /** A template file: its text and its modification time, `None` when the
      file's attributes cannot be read. */
  datatype NutFile = NutFile(text: string, modified: Option<int>)

  /** An artifact file: the encoded commands and its modification time. */
  datatype FruitFile = FruitFile(artifact: Json, modified: Option<int>)

  /** What `viewCommands(for:)` throws: `NutError.notExists`, or the error of
      the parser or of the decoder it calls. */
  datatype ResolveError =
    | NotExists(name: string)
    | Parse(parseError: ParseError)
    | Decode(decodeError: DecodeError)

  /** Everything `viewCommands(for:)` reads and writes. */
  datatype Store = Store(nuts: map<string, NutFile>, fruits: map<string, FruitFile>,
                         cache: map<string, ViewCommands>)

  /** `name.replacingAll(matching: "\\.", with: "/")`. */
  function DotsToSlashes(name: string): (r: string)
    ensures |r| == |name|
    ensures forall k :: 0 <= k < |name| ==> r[k] == if name[k] == '.' then '/' else name[k]
  {
    if name == [] then []
    else DotsToSlashes(name[..|name| - 1]) + [if name[|name| - 1] == '.' then '/' else name[|name| - 1]]
  }

  /** The template's path: every `.` of the view name becomes `/`, then `.nut`. */
  function NutPath(name: string): (r: string)
    ensures |r| == |name| + 4 && r[|name|..] == ".nut"
    ensures forall k :: 0 <= k < |name| ==> r[k] != '.' && (name[k] != '.' ==> r[k] == name[k])
  {
    DotsToSlashes(name) + ".nut"
  }

  /** The artifact's path: the view name itself, then `.fruit`. */
  function FruitPath(name: string): (r: string)
    ensures |r| == |name| + 6 && r[..|name|] == name && r[|name|..] == ".fruit"
  {
    name + ".fruit"
  }

  /** `getModificationDate(for:)`: unknown for a missing file. */
  function NutModified(s: Store, name: string): (r: Option<int>)
    ensures r.Some? ==> NutPath(name) in s.nuts
  {
    if NutPath(name) in s.nuts then s.nuts[NutPath(name)].modified else None
  }

  function FruitModified(s: Store, name: string): (r: Option<int>)
    ensures r.Some? ==> FruitPath(name) in s.fruits
  {
    if FruitPath(name) in s.fruits then s.fruits[FruitPath(name)].modified else None
  }

  /** `isValid(fruit:nut:)`: both modification times are known and the
      artifact's is strictly later than the template's. A valid artifact
      implies that both files exist. */
  function IsValid(s: Store, name: string): (r: bool)
    ensures r <==> FruitPath(name) in s.fruits && NutPath(name) in s.nuts
                   && s.fruits[FruitPath(name)].modified.Some? && s.nuts[NutPath(name)].modified.Some?
                   && s.fruits[FruitPath(name)].modified.value > s.nuts[NutPath(name)].modified.value
  {
    var fruit := FruitModified(s, name);
    var nut := NutModified(s, name);
    fruit.Some? && nut.Some? && fruit.value > nut.value
  }

  /** The template compiled by `NutParser(content:name:).getCommands()`. */
  function Compile(s: Store, name: string): (r: Result<ViewCommands, ResolveError>)
    requires NutPath(name) in s.nuts
    ensures r.Ok? ==> r.value.fileName == NutPath(name) && GoodList(r.value.body)
  {
    match ParseAll(NutPath(name), s.nuts[NutPath(name)].text)
    case Err(e) => Err(Parse(e))
    case Ok(body) => Ok(ViewCommands(NutPath(name), body))
  }

  /** `viewCommands(for:)`: the result and the new store. `now` is the
      modification time a write gives the artifact. Only the cache entry of
      `name` and the artifact of `name` can change. */
  function ViewCommandsFor(s: Store, name: string, now: int): (r: (Result<ViewCommands, ResolveError>, Store))
    ensures r.1.nuts == s.nuts
    ensures r.0.Err? ==> r.1 == s
  {
    var valid := IsValid(s, name);
    if name in s.cache && valid then (Ok(s.cache[name]), s)
    else if NutPath(name) !in s.nuts then (Err(NotExists(NutPath(name))), s)
    else if FruitPath(name) in s.fruits && valid then
      match DecodeView(s.fruits[FruitPath(name)].artifact)
      case Err(e) => (Err(Decode(e)), s)
      case Ok(v) => (Ok(v), s.(cache := s.cache[name := v]))
    else
      match Compile(s, name)
      case Err(e) => (Err(e), s)
      case Ok(v) =>
        var encoded := EncodeView(v);
        if FruitPath(name) in s.fruits && s.fruits[FruitPath(name)].artifact == encoded then (Ok(v), s)
        else (Ok(v), s.(fruits := s.fruits[FruitPath(name) := FruitFile(encoded, Some(now))],
                        cache := s.cache[name := v]))
  }

  /** Only the artifact and the cache entry of `name` can change: every
      other artifact and cache entry is kept as it was. */
  lemma OnlyOwnEntriesChange(s: Store, name: string, now: int)
    ensures var t := ViewCommandsFor(s, name, now).1;
      (forall p :: p != FruitPath(name) ==> (p in t.fruits <==> p in s.fruits))
      && (forall p :: p != FruitPath(name) && p in s.fruits ==> t.fruits[p] == s.fruits[p])
      && (forall n :: n != name ==> (n in t.cache <==> n in s.cache))
      && (forall n :: n != name && n in s.cache ==> t.cache[n] == s.cache[n])
  {
  }

  /** Without its template a view always fails with `notExists`, whatever the
      cache holds, because validity needs the template's modification time. */
  lemma NotExistsWithoutTemplate(s: Store, name: string, now: int)
    requires NutPath(name) !in s.nuts
    ensures ViewCommandsFor(s, name, now) == (Err(NotExists(NutPath(name))), s)
  {
  }

  /** A cached entry is returned exactly when it exists and the artifact is
      valid; otherwise the cache plays no part in the result. */
  lemma CacheUsedOnlyWhenValid(s: Store, name: string, now: int)
    ensures name in s.cache && IsValid(s, name) ==> ViewCommandsFor(s, name, now) == (Ok(s.cache[name]), s)
    ensures !IsValid(s, name) ==>
      ViewCommandsFor(s, name, now).0 == ViewCommandsFor(s.(cache := s.cache - {name}), name, now).0
  {
  }

  /** A valid artifact is decoded; an invalid or missing one means the
      template is compiled. */
  lemma ArtifactOrTemplate(s: Store, name: string, now: int)
    requires name !in s.cache && NutPath(name) in s.nuts
    ensures IsValid(s, name) ==>
      ViewCommandsFor(s, name, now).0 == match DecodeView(s.fruits[FruitPath(name)].artifact)
        case Ok(v) => Ok(v)
        case Err(e) => Err(Decode(e))
    ensures !IsValid(s, name) ==> ViewCommandsFor(s, name, now).0 == Compile(s, name)
  {
  }

  /** Compiling to an artifact equal to the stored one writes nothing and
      leaves the cache as it was. */
  lemma IdenticalArtifactNotWritten(s: Store, name: string, now: int)
    requires NutPath(name) in s.nuts && !IsValid(s, name) && Compile(s, name).Ok?
    requires FruitPath(name) in s.fruits && s.fruits[FruitPath(name)].artifact == EncodeView(Compile(s, name).value)
    ensures ViewCommandsFor(s, name, now) == (Compile(s, name), s)
  {
  }

  /** A successful call either leaves the store untouched because the stored
      artifact already encodes the returned commands, or leaves the name
      cached with them; after a write, the stored artifact decodes back to
      them. */
  lemma SuccessIsCached(s: Store, name: string, now: int)
    ensures var (r, t) := ViewCommandsFor(s, name, now);
      r.Ok? ==>
        (t == s && FruitPath(name) in s.fruits && s.fruits[FruitPath(name)].artifact == EncodeView(r.value))
        || (name in t.cache && t.cache[name] == r.value)
    ensures var (r, t) := ViewCommandsFor(s, name, now);
      r.Ok? && t.fruits != s.fruits ==>
        t.fruits[FruitPath(name)].modified == Some(now)
        && DecodeView(t.fruits[FruitPath(name)].artifact) == Ok(r.value)
  {
  }

  /** Asking again for the same view gives the same answer and changes
      nothing more, whatever the clock says the second time. This is why the
      interpreter can treat the resolver as a function of the view name. */
  lemma {:induction false} ResolveIdempotent(s: Store, name: string, now: int, later: int)
    ensures var (r, t) := ViewCommandsFor(s, name, now);
      ViewCommandsFor(t, name, later) == (r, t)
  {
    var (r, t) := ViewCommandsFor(s, name, now);
    if t != s {
      var v := r.value;
      if FruitPath(name) in s.fruits && IsValid(s, name) {
        DecodedAgain(s, name, v, later);
      } else {
        CompiledAgain(s, name, v, now, later);
      }
    }
  }

  /** After a decoded artifact was cached, the next call hits the cache. */
  lemma DecodedAgain(s: Store, name: string, v: ViewCommands, later: int)
    requires IsValid(s, name)
    ensures var t := s.(cache := s.cache[name := v]);
      ViewCommandsFor(t, name, later) == (Ok(v), t)
  {
    var t := s.(cache := s.cache[name := v]);
    assert IsValid(t, name);
  }

  /** After a compiled view was written and cached, the next call hits the
      cache or, when the new artifact is not later than the template,
      compiles the same commands to the same artifact and writes nothing. */
  lemma CompiledAgain(s: Store, name: string, v: ViewCommands, now: int, later: int)
    requires NutPath(name) in s.nuts && Compile(s, name) == Ok(v)
    ensures var t := s.(fruits := s.fruits[FruitPath(name) := FruitFile(EncodeView(v), Some(now))],
                        cache := s.cache[name := v]);
      ViewCommandsFor(t, name, later) == (Ok(v), t)
  {
    var t := s.(fruits := s.fruits[FruitPath(name) := FruitFile(EncodeView(v), Some(now))],
                cache := s.cache[name := v]);
    if !IsValid(t, name) {
      assert Compile(t, name) == Compile(s, name);
      assert t.fruits[FruitPath(name)].artifact == EncodeView(v);
    }
  }

  /** The resolver: the files it reads and writes and the shared cache. */
  class NutResolver {
    var nuts: map<string, NutFile>
    var fruits: map<string, FruitFile>
    var cache: map<string, ViewCommands>

    constructor(nuts: map<string, NutFile>, fruits: map<string, FruitFile>)
      ensures this.nuts == nuts && this.fruits == fruits && cache == map[]
    {
      this.nuts := nuts;
      this.fruits := fruits;
      cache := map[];
    }

    function State(): Store
      reads this
    {
      Store(nuts, fruits, cache)
    }

    /** `viewCommands(for:)`. */
    method ViewCommands(name: string, now: int) returns (r: Result<ViewCommands, ResolveError>)
      modifies this
      ensures (r, State()) == ViewCommandsFor(old(State()), name, now)
    {
      var nutName := DotsToSlashes(name) + ".nut";
      var fruitName := name + ".fruit";
      var fruitValid := IsValid(State(), name);
      if name in cache && fruitValid {
        return Ok(cache[name]);
      }
      if nutName !in nuts {
        return Err(NotExists(nutName));
      }
      var vCommands: ViewCommands;
      if fruitName in fruits && fruitValid {
        var decoded := DecodeView(fruits[fruitName].artifact);
        if decoded.Err? {
          return Err(Decode(decoded.error));
        }
        vCommands := decoded.value;
      } else {
        var parser := new Parser.NutParser(nuts[nutName].text, nutName);
        var parsed := parser.GetCommands();
        if parsed.Err? {
          return Err(Parse(parsed.error));
        }
        vCommands := parsed.value;
        var fruitContent := EncodeView(vCommands);
        if fruitName in fruits && fruits[fruitName].artifact == fruitContent {
          return Ok(vCommands);
        }
        fruits := fruits[fruitName := FruitFile(fruitContent, Some(now))];
      }
      cache := cache[name := vCommands];
      return Ok(vCommands);
    }
  }
}
