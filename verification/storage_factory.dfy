/**
 * Backend selection: the local file-backed project or a lazily connected
 * remote project, chosen by a mode string or by the presence of an API key.
 */
module StorageFactory {
  import opened Wrappers
  import LocalStorage

  const ApiKeyVar := "HOPSWORKS_API_KEY"
  const LocalProjectName := "local_electricity_prediction"

  datatype Mode = Local | Production

  /** The key is set and not empty (an empty value is falsy). */
  predicate HasApiKey(env: map<string, string>)
  {
    ApiKeyVar in env && env[ApiKeyVar] != ""
  }

  /** `detect_mode`: production exactly when the API key is set. */
  function DetectMode(env: map<string, string>): (m: Mode)
    ensures m == Production <==> HasApiKey(env)
    ensures m == Local <==> !HasApiKey(env)
  {
    if HasApiKey(env) then Production else Local
  }

  /** The mode names `get_storage` accepts; anything else is a ValueError. */
  function ParseMode(mode: string): (r: Result<Mode>)
    ensures r == Ok(Local) <==> mode == "local"
    ensures r == Ok(Production) <==> mode == "production"
    ensures r.Err? <==> mode != "local" && mode != "production"
    ensures r.Err? ==> r.error.InvalidValue?
  {
    if mode == "local" then Ok(Local)
    else if mode == "production" then Ok(Production)
    else Err(InvalidValue("Invalid mode: " + mode + ". Must be 'local' or 'production'"))
  }

  /** A detected mode is always one `get_storage` accepts. */
  lemma DetectedModeParses(env: map<string, string>)
    ensures ParseMode(if DetectMode(env) == Local then "local" else "production") == Ok(DetectMode(env))
  {
  }

  /** `LocalProject`: a feature store over `data/processed` and a registry over `data/models`. */
  datatype LocalProject = LocalProject(name: string, store: LocalStorage.FeatureStore, registryBase: string)

  /** `get_local_project`. */
  function GetLocalProject(): (p: LocalProject)
    ensures p.name == LocalProjectName
    ensures p.store.basePath == LocalStorage.TableBase && p.registryBase == LocalStorage.ModelBase
  {
    LocalProject(LocalProjectName, LocalStorage.FeatureStore(LocalStorage.TableBase), LocalStorage.ModelBase)
  }

  /**
   * What a remote login yields: the project's name and the outcome of asking
   * it for its feature store and for its model registry (handles as names).
   */
  datatype Project = Project(name: string, featureStore: Result<string>, modelRegistry: Result<string>)

  /** `HopsworksStorage`: unconnected until the first successful login. */
  class HopsworksStorage {
    var project: Option<Project>
    var fs: Option<string>
    /** How many times the remote login was attempted. */
    ghost var logins: nat

    /** A feature store is held only as the one the held project handed out. */
    predicate Valid()
      reads this
    {
      fs.Some? ==> project.Some? && project.value.featureStore == Ok(fs.value)
    }

    /** The constructor; ImportError when the library is missing is `GetStorage`'s error path. */
    constructor ()
      ensures Valid() && project.None? && fs.None? && logins == 0
    {
      project := None;
      fs := None;
      logins := 0;
    }

    /**
     * `get_feature_store`.  `env` is the environment and `login` the outcome of
     * `hopsworks.login()`, consulted only when unconnected.  Without an API key
     * it raises and stays unconnected.  Once a login has returned a project, no
     * later call logs in again and every later call returns the same store —
     * `None` as well, when that project's feature store failed on the first call.
     */
    method GetFeatureStore(env: map<string, string>, login: Result<Project>) returns (r: Result<Option<string>>)
      requires Valid()
      modifies this
      ensures Valid()
      ensures old(project).Some? ==>
        r == Ok(old(fs)) && project == old(project) && fs == old(fs) && logins == old(logins)
      ensures old(project).None? && !HasApiKey(env) ==>
        r.Err? && r.error.InvalidValue? && project.None? && fs == old(fs) && logins == old(logins)
      ensures old(project).None? && HasApiKey(env) ==>
        && logins == old(logins) + 1
        && (login.Err? ==> r == Err(login.error) && project.None? && fs == old(fs))
        && (login.Ok? ==> project == Some(login.value))
        && (login.Ok? && login.value.featureStore.Err? ==> r == Err(login.value.featureStore.error) && fs == old(fs))
        && (login.Ok? && login.value.featureStore.Ok? ==>
              r == Ok(Some(login.value.featureStore.value)) && fs == Some(login.value.featureStore.value))
    {
      if project.None? {
        if !HasApiKey(env) {
          return Err(InvalidValue(ApiKeyVar + " not found in environment"));
        }
        logins := logins + 1;
        if login.Err? {
          return Err(login.error);
        }
        project := Some(login.value);
        if login.value.featureStore.Err? {
          // The project stays set although the call fails.
          return Err(login.value.featureStore.error);
        }
        fs := Some(login.value.featureStore.value);
      }
      r := Ok(fs);
    }

    /**
     * `get_model_registry`: connect first when unconnected (its failure
     * propagates), then ask the held project for its registry.
     */
    method GetModelRegistry(env: map<string, string>, login: Result<Project>) returns (r: Result<string>)
      requires Valid()
      modifies this
      ensures Valid()
      ensures old(project).Some? ==>
        r == old(project).value.modelRegistry && project == old(project) && fs == old(fs) && logins == old(logins)
      ensures old(project).None? ==>
        (r.Ok? <==> HasApiKey(env) && login.Ok? && login.value.featureStore.Ok? && login.value.modelRegistry.Ok?)
      ensures old(project).None? && r.Ok? ==> r == login.value.modelRegistry && project == Some(login.value)
      ensures old(project).None? && !HasApiKey(env) ==>
        r.Err? && r.error.InvalidValue? && project.None? && fs == old(fs) && logins == old(logins)
      ensures old(project).None? && HasApiKey(env) ==>
        && logins == old(logins) + 1
        && (login.Err? ==> r == Err(login.error) && project.None? && fs == old(fs))
        && (login.Ok? ==> project == Some(login.value))
        && (login.Ok? && login.value.featureStore.Err? ==> r == Err(login.value.featureStore.error) && fs == old(fs))
        && (login.Ok? && login.value.featureStore.Ok? ==>
              r == login.value.modelRegistry && fs == Some(login.value.featureStore.value))
    {
      if project.None? {
        var connected := GetFeatureStore(env, login);
        if connected.Err? {
          return Err(connected.error);
        }
      }
      r := project.value.modelRegistry;
    }
  }

  /** The backend `get_storage` hands out. */
  datatype Backend = LocalBackend(project: LocalProject) | RemoteBackend(storage: HopsworksStorage)

  /**
   * `StorageFactory.get_storage` and `get_storage`: `installed` says whether
   * the remote library can be imported.
   */
  method GetStorage(mode: string, installed: bool) returns (r: Result<Backend>)
    ensures mode == "local" ==> r == Ok(LocalBackend(GetLocalProject()))
    ensures mode == "production" && installed ==>
      r.Ok? && r.value.RemoteBackend? && fresh(r.value.storage) &&
      r.value.storage.Valid() && r.value.storage.project.None? && r.value.storage.logins == 0
    ensures mode == "production" && !installed ==> r.Err? && r.error.ImportFailed?
    ensures mode != "local" && mode != "production" ==> r.Err? && r.error.InvalidValue?
  {
    var m := ParseMode(mode);
    if m.Err? {
      return Err(m.error);
    }
    if m.value == Local {
      return Ok(LocalBackend(GetLocalProject()));
    }
    if !installed {
      return Err(ImportFailed("Hopsworks not installed"));
    }
    var storage := new HopsworksStorage();
    r := Ok(RemoteBackend(storage));
  }
}
