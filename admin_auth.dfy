/**
 * Who may open the admin pages (`src/lib/adminAuth.js`): a signed-in user whose
 * `app_metadata.role` is `admin`, or whose e-mail matches the configured admin address
 * without regard to case.
 */
module AdminAuth {
  import opened Wrappers
  import Text

  /** The two fields read from a session's user: `app_metadata?.role` and `email`. */
  datatype User = User(role: Option<string>, email: Option<string>)

  /**
   * `ADMIN_EMAIL`: the `VITE_ADMIN_EMAIL` setting, trimmed and lower-cased; the empty
   * string when it is not set. It is read once, when the module loads.
   */
  function ConfiguredEmail(setting: Option<string>): string {
    Text.ToLower(Text.Trim(setting.GetOr("")))
  }

  /** `isAdminUser(user)` against the configured address `adminEmail`. */
  predicate IsAdminUser(user: Option<User>, adminEmail: string) {
    && user.Some?
    && (|| user.value.role == Some("admin")
        || (adminEmail != "" && user.value.email.Some? && Text.ToLower(user.value.email.value) == adminEmail))
  }

  /** Without a user nobody is admin, whatever the configuration. */
  lemma NoUserIsNeverAdmin(adminEmail: string)
    ensures !IsAdminUser(None, adminEmail)
  {
  }

  /** The `admin` role is enough on its own, whatever the e-mail and the configuration. */
  lemma AdminRoleSuffices(user: User, adminEmail: string)
    requires user.role == Some("admin")
    ensures IsAdminUser(Some(user), adminEmail)
  {
  }

  /** A missing or blank setting configures no address at all. */
  lemma BlankSettingConfiguresNothing(setting: Option<string>)
    requires setting.None? || Text.IsBlank(setting.value)
    ensures ConfiguredEmail(setting) == ""
  {
  }

  /** With no address configured (a missing or blank setting, above) only the role counts. */
  lemma NoAddressOnlyRoleCounts(user: User, adminEmail: string)
    requires adminEmail == ""
    ensures IsAdminUser(Some(user), adminEmail) <==> user.role == Some("admin")
  {
  }

  /**
   * A user without the role is admin exactly when an address is configured and the
   * user's e-mail, lower-cased, is that address.
   */
  lemma EmailDecidesWithoutRole(user: User, adminEmail: string)
    requires user.role != Some("admin")
    ensures IsAdminUser(Some(user), adminEmail) <==>
      adminEmail != "" && user.email.Some? && Text.ToLower(user.email.value) == adminEmail
  {
  }

  /** Whenever the setting, once trimmed, names the user's e-mail up to case, the user is admin. */
  lemma MatchingEmailIsAdmin(user: User, setting: string)
    requires !Text.IsBlank(setting)
    requires user.email.Some? && Text.ToLower(user.email.value) == Text.ToLower(Text.Trim(setting))
    ensures IsAdminUser(Some(user), ConfiguredEmail(Some(setting)))
  {
    assert |Text.ToLower(Text.Trim(setting))| == |Text.Trim(setting)| > 0;
  }

  /** Only the lower-cased e-mail matters: upper-case letters in it change nothing. */
  lemma EmailCaseIgnored(user: User, other: string, adminEmail: string)
    requires user.email.Some? && Text.ToLower(user.email.value) == Text.ToLower(other)
    ensures IsAdminUser(Some(user), adminEmail) <==> IsAdminUser(Some(user.(email := Some(other))), adminEmail)
  {
  }

  /** ASCII lower-casing maps white space to white space and nothing else to it. */
  lemma LowerCharKeepsSpace(c: char)
    ensures Text.IsSpace(Text.LowerChar(c)) <==> Text.IsSpace(c)
  {
  }

  /**
   * The user's e-mail is not trimmed: one that starts with white space never matches the
   * configured address, so such a user needs the role.
   */
  lemma UntrimmedEmailNeverMatches(user: User, setting: Option<string>)
    requires user.email.Some? && |user.email.value| > 0 && Text.IsSpace(user.email.value[0])
    ensures IsAdminUser(Some(user), ConfiguredEmail(setting)) <==> user.role == Some("admin")
  {
    var adminEmail := ConfiguredEmail(setting);
    var trimmed := Text.Trim(setting.GetOr(""));
    var lowered := Text.ToLower(user.email.value);
    if adminEmail != "" {
      assert |trimmed| > 0 && !Text.IsSpace(trimmed[0]);
      LowerCharKeepsSpace(trimmed[0]);
      LowerCharKeepsSpace(user.email.value[0]);
      assert adminEmail[0] == Text.LowerChar(trimmed[0]);
      assert lowered[0] == Text.LowerChar(user.email.value[0]);
      assert lowered != adminEmail;
    }
  }
}
