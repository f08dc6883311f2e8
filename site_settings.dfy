/**
  The site-settings panel's writes: the settings record and its file form,
  writing a deployment setup together with the settings file, and saving the
  settings with both banner images.
*/
module SiteSettings {
  import opened Wrappers
  import opened Types
  import opened Hooks

  /** The settings as edited: the file's fields plus the two banner images' SVG text. */
  datatype Settings = Settings(
    title: string,
    docsURLPrefix: string,
    siteURLPrefix: string,
    footerBannerLink: string,
    headerBannerBlob: string,
    footerBannerBlob: string,
    deploymentSetup: Option<string>)

  /** The settings as stored in the settings file: no banner images. */
  datatype SettingsFile = SettingsFile(
    title: string,
    docsURLPrefix: string,
    siteURLPrefix: string,
    footerBannerLink: string,
    deploymentSetup: Option<string>)

  const SETTINGS_FILENAME: string := "site-settings.yaml"
  const HEADER_BANNER_FILENAME: string := "header-banner.svg"
  const FOOTER_BANNER_FILENAME: string := "footer-banner.svg"

  /** The settings put back together from their file form and the two banner images. */
  function WithBanners(file: SettingsFile, headerBannerBlob: string, footerBannerBlob: string): (r: Settings)
    ensures r.headerBannerBlob == headerBannerBlob && r.footerBannerBlob == footerBannerBlob
  {
    Settings(file.title, file.docsURLPrefix, file.siteURLPrefix, file.footerBannerLink,
             headerBannerBlob, footerBannerBlob, file.deploymentSetup)
  }

  /** `toFileContents`: the settings without their banner images, and nothing else lost. */
  function ToFileContents(settings: Settings): (r: SettingsFile)
    ensures WithBanners(r, settings.headerBannerBlob, settings.footerBannerBlob) == settings
  {
    SettingsFile(settings.title, settings.docsURLPrefix, settings.siteURLPrefix,
                 settings.footerBannerLink, settings.deploymentSetup)
  }

  /** The file form does not depend on the banner images. */
  lemma FileContentsIgnoreBanners(settings: Settings, header: string, footer: string)
    ensures ToFileContents(settings.(headerBannerBlob := header, footerBannerBlob := footer)) == ToFileContents(settings)
    ensures ToFileContents(WithBanners(ToFileContents(settings), header, footer)) == ToFileContents(settings)
  {
    var other := settings.(headerBannerBlob := header, footerBannerBlob := footer);
    assert WithBanners(ToFileContents(other), header, footer) == other;
  }

  /**
    The settings a new site starts with. The two default banner images are SVG
    text constants of the panel, given here as parameters.
  */
  function SettingsStub(defaultHeaderSvg: string, defaultFooterSvg: string): (r: Settings)
    ensures ToFileContents(r) == SettingsFile("Documentation site", "", "", "https://open.ribose.com/", None)
    ensures r.headerBannerBlob == defaultHeaderSvg && r.footerBannerBlob == defaultFooterSvg
  {
    Settings("Documentation site", "", "", "https://open.ribose.com/", defaultHeaderSvg, defaultFooterSvg, None)
  }

  // ---------------------------------------------------------------------------
  // The changesets

  /**
    A deployment setup, as registered by id: its `getChangeset` for the current
    settings, adding (`remove` false) or removing its files; a `Failure` when it
    throws.
  */
  datatype DeploymentSetup = DeploymentSetup(getChangeset: (Settings, bool) -> Result<Changeset, JsError>)

  /** The settings file as written with a deployment setup: its id when adding, `null` when removing. */
  function DeploymentSettingsFile(settings: Settings, setupID: string, remove: bool): (r: SettingsFile)
    ensures r.deploymentSetup == (if remove then None else Some(setupID))
    ensures r.(deploymentSetup := settings.deploymentSetup) == ToFileContents(settings)
  {
    ToFileContents(settings).(deploymentSetup := if !remove then Some(setupID) else None)
  }

  /**
    The deployment setup's own changeset with the settings file written over
    it: the settings entry is added last, so it replaces any entry for the same
    file, and the other entries stay as the setup made them.
  */
  function DeploymentChangeset(
    setupChangeset: Changeset, settings: Settings, setupID: string, remove: bool,
    dump: SettingsFile -> string): (r: Changeset)
    ensures r.Keys == setupChangeset.Keys + {SETTINGS_FILENAME}
    ensures r[SETTINGS_FILENAME] == Write(Unchecked, dump(DeploymentSettingsFile(settings, setupID, remove)))
    ensures forall k :: k in setupChangeset && k != SETTINGS_FILENAME ==> r[k] == setupChangeset[k]
  {
    setupChangeset[SETTINGS_FILENAME := Write(Unchecked, dump(DeploymentSettingsFile(settings, setupID, remove)))]
  }

  /** The save's changeset: the settings file and both banner images verbatim, none of them checked. */
  function SaveSettingsChangeset(newSettings: Settings, dump: SettingsFile -> string): (r: Changeset)
    ensures r.Keys == {SETTINGS_FILENAME, HEADER_BANNER_FILENAME, FOOTER_BANNER_FILENAME}
    ensures |r| == 3
    ensures forall k :: k in r ==> r[k].oldValue == Unchecked && r[k].newValue.Some?
    ensures r[SETTINGS_FILENAME].newValue == Some(dump(ToFileContents(newSettings)))
    ensures r[HEADER_BANNER_FILENAME].newValue == Some(newSettings.headerBannerBlob)
    ensures r[FOOTER_BANNER_FILENAME].newValue == Some(newSettings.footerBannerBlob)
  {
    var r := map[
      SETTINGS_FILENAME := Write(Unchecked, dump(ToFileContents(newSettings))),
      HEADER_BANNER_FILENAME := Write(Unchecked, newSettings.headerBannerBlob),
      FOOTER_BANNER_FILENAME := Write(Unchecked, newSettings.footerBannerBlob)];
    assert |r.Keys| == 3 by {
      assert r.Keys == {SETTINGS_FILENAME} + {HEADER_BANNER_FILENAME} + {FOOTER_BANNER_FILENAME};
    }
    r
  }

  /**
    Initialising the settings of a new site writes the stub: empty URL
    prefixes, the default banner images and no deployment setup.
  */
  lemma StubSave(defaultHeaderSvg: string, defaultFooterSvg: string, dump: SettingsFile -> string)
    ensures var r := SaveSettingsChangeset(SettingsStub(defaultHeaderSvg, defaultFooterSvg), dump);
            && r[SETTINGS_FILENAME] == Write(Unchecked, dump(SettingsFile("Documentation site", "", "", "https://open.ribose.com/", None)))
            && r[HEADER_BANNER_FILENAME] == Write(Unchecked, defaultHeaderSvg)
            && r[FOOTER_BANNER_FILENAME] == Write(Unchecked, defaultFooterSvg)
  {
    var r := SaveSettingsChangeset(SettingsStub(defaultHeaderSvg, defaultFooterSvg), dump);
    assert r[SETTINGS_FILENAME].newValue == Some(dump(SettingsFile("Documentation site", "", "", "https://open.ribose.com/", None)));
  }

  // ---------------------------------------------------------------------------
  // The panel's handlers

  /** What a call of a handler came to. */
  datatype SettingsOutcome =
    | Ignored          // busy, no settings, or unsaved edits
    | NoChangeset      // the deployment setup is unknown or could not give a changeset
    | Written          // submitted and accepted
    | Rejected         // submitted and refused by the host

  /** The panel's state: its own busy flag, the unsaved edits, and the changesets submitted. */
  class SettingsPanel {
    var busy: bool
    var editedSettings: Option<Settings>
    var submitted: seq<Commit>

    constructor ()
      ensures !busy && editedSettings.None? && submitted == []
    {
      busy := false;
      editedSettings := None;
      submitted := [];
    }

    /** The settings shown: the edits when there are any, else the stored settings. */
    function CurrentSettings(original: ValueHook<Option<Settings>>): Option<Settings>
      reads this
    {
      if editedSettings.Some? then editedSettings else original.value
    }

    /** Busy while the stored settings are being updated or a write of the panel is under way. */
    predicate IsBusy(original: ValueHook<Option<Settings>>)
      reads this
    {
      original.isUpdating || busy
    }

    /**
      `handleWriteDeploymentSetup`: nothing happens while busy, without
      settings or with unsaved edits, nor when the setup is unknown or cannot
      give its changeset; otherwise the setup's changeset with the settings file
      is submitted, and the panel is not busy afterwards.
    */
    method HandleWriteDeploymentSetup(
      original: ValueHook<Option<Settings>>, setups: map<string, DeploymentSetup>,
      setupID: string, remove: bool, dump: SettingsFile -> string, hostAccepts: bool)
      returns (r: SettingsOutcome)
      modifies this
      ensures editedSettings == old(editedSettings)
      ensures old(IsBusy(original) || CurrentSettings(original).None? || editedSettings.Some?) ==>
                r == Ignored && busy == old(busy) && submitted == old(submitted)
      ensures !old(IsBusy(original) || CurrentSettings(original).None? || editedSettings.Some?) ==>
                var settings := original.value.value;
                if setupID !in setups || setups[setupID].getChangeset(settings, remove).Failure? then
                  r == NoChangeset && busy == old(busy) && submitted == old(submitted)
                else
                  var changeset := DeploymentChangeset(setups[setupID].getChangeset(settings, remove).value,
                                                       settings, setupID, remove, dump);
                  && submitted == old(submitted) + [Commit(changeset, "Write deployment setup")]
                  && r == (if hostAccepts then Written else Rejected)
                  && !busy
    {
      if IsBusy(original) || CurrentSettings(original).None? || editedSettings.Some? {
        return Ignored;
      }
      var settings := CurrentSettings(original).value;
      if setupID !in setups {
        return NoChangeset;
      }
      var got := setups[setupID].getChangeset(settings, remove);
      if got.Failure? {
        return NoChangeset;
      }
      var changeset := DeploymentChangeset(got.value, settings, setupID, remove, dump);
      busy := true;
      submitted := submitted + [Commit(changeset, "Write deployment setup")];
      r := if hostAccepts then Written else Rejected;
      busy := false;
    }

    /**
      `handleSaveSettings`: nothing happens while busy; otherwise the three
      files are submitted, and afterwards the panel is not busy and the edits
      are discarded, whether the host accepted the write or not.
    */
    method HandleSaveSettings(
      original: ValueHook<Option<Settings>>, newSettings: Settings,
      dump: SettingsFile -> string, hostAccepts: bool)
      returns (r: SettingsOutcome)
      modifies this
      ensures old(IsBusy(original)) ==>
                r == Ignored && busy == old(busy) && editedSettings == old(editedSettings) && submitted == old(submitted)
      ensures !old(IsBusy(original)) ==>
                && submitted == old(submitted) + [Commit(SaveSettingsChangeset(newSettings, dump), "Update site settings")]
                && r == (if hostAccepts then Written else Rejected)
                && !busy && editedSettings.None?
    {
      if IsBusy(original) {
        return Ignored;
      }
      busy := true;
      submitted := submitted + [Commit(SaveSettingsChangeset(newSettings, dump), "Update site settings")];
      r := if hostAccepts then Written else Rejected;
      busy := false;
      editedSettings := None;
    }

    /**
      The "Initialize site settings" button, offered only while there are no
      settings: it saves the stub, whose file form `StubSave` gives.
    */
    method InitializeSettings(
      original: ValueHook<Option<Settings>>, defaultHeaderSvg: string, defaultFooterSvg: string,
      dump: SettingsFile -> string, hostAccepts: bool)
      returns (r: SettingsOutcome)
      requires CurrentSettings(original).None?
      modifies this
      ensures old(IsBusy(original)) ==>
                r == Ignored && busy == old(busy) && editedSettings == old(editedSettings) && submitted == old(submitted)
      ensures !old(IsBusy(original)) ==>
                && submitted == old(submitted) + [Commit(SaveSettingsChangeset(SettingsStub(defaultHeaderSvg, defaultFooterSvg), dump),
                                                         "Update site settings")]
                && r == (if hostAccepts then Written else Rejected)
                && editedSettings.None? && !busy
    {
      r := HandleSaveSettings(original, SettingsStub(defaultHeaderSvg, defaultFooterSvg), dump, hostAccepts);
    }
  }
}
