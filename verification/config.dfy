/**
 * `get_company_config`: which company is selected, where its archive lives,
 * which sub-folders are searched, and the three variant flags the callers
 * use to pick a scan.
 */
module Config {
  import opened Wrappers
  import Codec

  /** The companies the user can select, by their names in `COMPANIES`. */
  datatype Company = AhhAmo | Anthem | Teladoc | SavRx

  const Companies: seq<string> := ["AHH_AMO", "ANTHEM_ABC_MUSGROW", "TELADOC", "SAVRX"]

  /** `ROOT_PATH`: an opaque location; paths are kept as their components. */
  const RootPath := "D:\\Transfers"

  function Name(c: Company): (n: string)
    ensures n in Companies
  {
    match c
    case AhhAmo => "AHH_AMO"
    case Anthem => "ANTHEM_ABC_MUSGROW"
    case Teladoc => "TELADOC"
    case SavRx => "SAVRX"
  }

  /** The company a selection names, if it names one. */
  function CompanyOf(name: string): (r: Option<Company>)
    ensures r.Some? <==> name in Companies
    ensures r.Some? ==> Name(r.value) == name
  {
    if name == "AHH_AMO" then Some(AhhAmo)
    else if name == "ANTHEM_ABC_MUSGROW" then Some(Anthem)
    else if name == "TELADOC" then Some(Teladoc)
    else if name == "SAVRX" then Some(SavRx)
    else None
  }

  lemma CompanyNamesRoundTrip(c: Company)
    ensures CompanyOf(Name(c)) == Some(c)
  {
  }

  /** `all_folders` for each company (AHH_AMO has a single blank entry). */
  function AllFolders(c: Company): (fs: seq<string>)
    ensures |fs| >= 1
  {
    match c
    case Anthem => Codec.AnthemFolders
    case AhhAmo => [" "]
    case Teladoc => ["MEI"]
    case SavRx => ["480", "521", "J84", "L82", "MEI", "OEW", "TRI", "TRI_NONMEDICARE"]
  }

  /** `base_path`, as the components `os.path.join` would join. */
  function BasePath(c: Company): seq<string>
  {
    match c
    case Anthem => [RootPath, "ANTHEM_ABC_MUSGROW", "834s"]
    case AhhAmo => [RootPath, "AHH_AMO"]
    case Teladoc => [RootPath, "TELADOC"]
    case SavRx => [RootPath, "SAVRX"]
  }

  datatype CompanyConfig = CompanyConfig(
    selectedCompany: string,
    basePath: seq<string>,
    activeFolders: seq<string>,
    isAhhAmo: bool,
    isTeladoc: bool,
    isSavRx: bool)

  /** The lookup either succeeds or raises `ValueError`. */
  datatype Lookup = Configured(config: CompanyConfig) | InvalidCompany

  /** A sub-folder selection is used when it is truthy and one of the company's folders. */
  predicate Chosen(c: Company, subfolder: Option<string>)
  {
    subfolder.Some? && subfolder.value != "" && subfolder.value in AllFolders(c)
  }

  function GetCompanyConfig(company: string, subfolder: Option<string>): (r: Lookup)
    ensures r.InvalidCompany? <==> company !in Companies
    ensures r.Configured? ==> r.config.selectedCompany == company
    ensures r.Configured? ==>
              var c := CompanyOf(company).value;
              r.config.basePath == BasePath(c)
              && (Chosen(c, subfolder) ==> r.config.activeFolders == [subfolder.value])
              && (!Chosen(c, subfolder) ==> r.config.activeFolders == AllFolders(c))
    ensures r.Configured? ==>
              (r.config.isAhhAmo <==> company == "AHH_AMO")
              && (r.config.isTeladoc <==> company == "TELADOC")
              && (r.config.isSavRx <==> company == "SAVRX")
  {
    match CompanyOf(company)
    case None => InvalidCompany
    case Some(c) =>
      var active := if Chosen(c, subfolder) then [subfolder.value] else AllFolders(c);
      Configured(CompanyConfig(company, BasePath(c), active,
                               company == "AHH_AMO", company == "TELADOC", company == "SAVRX"))
  }

  /** At most one flag is set, and ANTHEM sets none. */
  lemma FlagsExclusive(company: string, subfolder: Option<string>)
    requires GetCompanyConfig(company, subfolder).Configured?
    ensures var cfg := GetCompanyConfig(company, subfolder).config;
      (if cfg.isAhhAmo then 1 else 0) + (if cfg.isTeladoc then 1 else 0) + (if cfg.isSavRx then 1 else 0) <= 1
    ensures company == "ANTHEM_ABC_MUSGROW" ==>
      var cfg := GetCompanyConfig(company, subfolder).config;
      !cfg.isAhhAmo && !cfg.isTeladoc && !cfg.isSavRx
  {
  }

  /** The active folders are never empty and always drawn from the company's list. */
  lemma ActiveFoldersKnown(company: string, subfolder: Option<string>)
    requires GetCompanyConfig(company, subfolder).Configured?
    ensures var cfg := GetCompanyConfig(company, subfolder).config;
      |cfg.activeFolders| >= 1
      && forall f :: f in cfg.activeFolders ==> f in AllFolders(CompanyOf(company).value)
  {
  }

  /**
   * The folders each company searches are ones its codec understands: every
   * ANTHEM folder is a known prefix, and every SAVRX folder has a grammar.
   */
  lemma FoldersHaveCodecs(c: Company, f: string)
    requires f in AllFolders(c)
    ensures c == Anthem ==> f in Codec.AnthemFolders
    ensures c == SavRx ==> Codec.Grammar(f).Some?
  {
  }
}
