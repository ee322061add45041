/** The CMS plugin (`Cms`): the registration of sections, collections,
    node classes and renderers, and the directories of the database's sql
    scripts and migrations. */
module CmsPlugin {
  import opened Errors
  import opened Strings

  /** What is registered under a collection handle: a `Section` object made
      by `section(name)`, or a collection class. */
  datatype CollectionEntry = Section(sectionName: string) | CollectionClass(className: string)

  /** A registry entry for a renderer. */
  datatype Entry = Entry(id: string, className: string)

  /** The `string|array|null` argument that names extra directories. */
  datatype Dirs = NoDirs | OneDir(dir: string) | ManyDirs(dirs: seq<string>)

  /** PHP's truthiness of the argument: null, a falsy string and an empty array are false. */
  predicate DirsGiven(d: Dirs) {
    match d
    case NoDirs => false
    case OneDir(s) => Truthy(s)
    case ManyDirs(ds) => ds != []
  }

  /** The caller's directories: none when they are not given, the string
      wrapped in a list, or the list itself. */
  function Extra(d: Dirs): (r: seq<string>)
    ensures !DirsGiven(d) ==> r == []
    ensures DirsGiven(d) && d.OneDir? ==> r == [d.dir]
    ensures DirsGiven(d) && d.ManyDirs? ==> r == d.dirs
  {
    if !DirsGiven(d) then []
    else match d
      case OneDir(s) => [s]
      case ManyDirs(ds) => ds
      case NoDirs => []
  }

  /** The directory list passed to the connection: the package's own
      directory first, then the caller's. */
  function DirList(packageDir: string, d: Dirs): (r: seq<string>)
    ensures |r| >= 1 && r[0] == packageDir && r[1..] == Extra(d)
  {
    [packageDir] + Extra(d)
  }

  class Cms {
    const sessionEnabled: bool
    /** `$class::handle()` for every class. */
    const handle: string -> string
    /** Whether a class implements the `Renderer` interface. */
    const isRenderer: string -> bool
    var collections: map<string, CollectionEntry>
    var nodes: map<string, string>
    var renderers: seq<Entry>
    /** Whether `database` has set the readonly `$connection` and `$db`. */
    var connected: bool
    var sqlDirs: seq<string>
    var migrationDirs: seq<string>

    /** A new plugin has nothing registered. */
    constructor (sessionEnabled: bool := false, handle: string -> string, isRenderer: string -> bool)
      ensures this.sessionEnabled == sessionEnabled && this.handle == handle && this.isRenderer == isRenderer
      ensures collections == map[] && nodes == map[] && renderers == []
      ensures !connected && sqlDirs == [] && migrationDirs == []
    {
      this.sessionEnabled := sessionEnabled;
      this.handle := handle;
      this.isRenderer := isRenderer;
      collections := map[];
      nodes := map[];
      renderers := [];
      connected := false;
      sqlDirs := [];
      migrationDirs := [];
    }

    /** `section(name)`: registers a section under its name, replacing
        whatever was there. */
    method AddSection(name: string)
      modifies this
      ensures collections == old(collections)[name := Section(name)]
      ensures nodes == old(nodes) && renderers == old(renderers)
      ensures connected == old(connected) && sqlDirs == old(sqlDirs) && migrationDirs == old(migrationDirs)
    {
      collections := collections[name := Section(name)];
    }

    /** `collection(class)`: a handle already taken, by a collection or a
        section, is a RuntimeException and changes nothing; otherwise the
        class is added under its handle. */
    method AddCollection(c: string) returns (o: Outcome)
      modifies this
      ensures o.Fail? <==> handle(c) in old(collections)
      ensures o.Fail? ==> o.error == RuntimeError("Duplicate collection handle: " + handle(c))
      ensures o.Fail? ==> collections == old(collections)
      ensures o.Pass? ==> collections == old(collections)[handle(c) := CollectionClass(c)]
      ensures nodes == old(nodes) && renderers == old(renderers)
      ensures connected == old(connected) && sqlDirs == old(sqlDirs) && migrationDirs == old(migrationDirs)
    {
      var h := handle(c);
      if h in collections {
        return Fail(RuntimeError("Duplicate collection handle: " + h));
      }
      collections := collections[handle(c) := CollectionClass(c)];
      return Pass;
    }

    /** `node(class)`: a handle already taken is a RuntimeException and
        changes nothing; otherwise exactly handle -> class is added. */
    method AddNode(c: string) returns (o: Outcome)
      modifies this
      ensures o.Fail? <==> handle(c) in old(nodes)
      ensures o.Fail? ==> o.error == RuntimeError("Duplicate node handle: " + handle(c))
      ensures o.Fail? ==> nodes == old(nodes)
      ensures o.Pass? ==> nodes == old(nodes)[handle(c) := c]
      ensures collections == old(collections) && renderers == old(renderers)
      ensures connected == old(connected) && sqlDirs == old(sqlDirs) && migrationDirs == old(migrationDirs)
    {
      var h := handle(c);
      if h in nodes {
        return Fail(RuntimeError("Duplicate node handle: " + h));
      }
      nodes := nodes[h := c];
      return Pass;
    }

    /** `renderer(id, class)`: appends the entry for a class that implements
        `Renderer` and returns it; any other class is a RuntimeException. */
    method AddRenderer(id: string, c: string) returns (r: Result<Entry>)
      modifies this
      ensures r.Ok? <==> isRenderer(c)
      ensures r.Ok? ==> r.value == Entry(id, c) && renderers == old(renderers) + [r.value]
      ensures r.Err? ==> r.error == RuntimeError(RendererMessage) && renderers == old(renderers)
      ensures collections == old(collections) && nodes == old(nodes)
      ensures connected == old(connected) && sqlDirs == old(sqlDirs) && migrationDirs == old(migrationDirs)
    {
      if isRenderer(c) {
        var e := Entry(id, c);
        renderers := renderers + [e];
        return Ok(e);
      }
      return Err(RuntimeError(RendererMessage));
    }

    /** `database(...)`: the sql and migration directories of the
        connection, each the package's directory under `root` followed by the
        caller's. `$connection` and `$db` are readonly, so only the first call
        sets them; a later one is PHP's Error and keeps the first directories. */
    method Database(root: string, sql: Dirs := NoDirs, migrations: Dirs := NoDirs) returns (r: Outcome)
      modifies this
      ensures r.Fail? <==> old(connected)
      ensures r.Fail? ==> r.error == PhpError(ReadonlyConnectionMessage)
      ensures r.Fail? ==> sqlDirs == old(sqlDirs) && migrationDirs == old(migrationDirs)
      ensures r.Pass? ==> sqlDirs == DirList(root + "/db/sql", sql)
      ensures r.Pass? ==> migrationDirs == DirList(root + "/db/migrations", migrations)
      ensures connected
      ensures collections == old(collections) && nodes == old(nodes) && renderers == old(renderers)
    {
      if connected {
        return Fail(PhpError(ReadonlyConnectionMessage));
      }
      sqlDirs := DirList(root + "/db/sql", sql);
      migrationDirs := DirList(root + "/db/migrations", migrations);
      connected := true;
      return Pass;
    }
  }

  const RendererMessage := "Renderers must imlement the `Conia\\Cms\\Renderer` interface"
  const ReadonlyConnectionMessage := "Cannot modify readonly property Conia\\Cms\\Cms::$connection"
}
