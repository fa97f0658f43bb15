/** The `User` entity (backend/.../entity/User.java): account data, the
    password-reset fields, the persistence lifecycle hooks and the
    `UserDetails` view Spring Security reads. Times are seconds on the
    server clock, which the hooks receive as a parameter. */
module UserEntity {
  import opened Base

  class User {
    var id: Option<int>
    var userName: string
    var email: string
    var password: string
    var createdAt: Option<int>
    var updatedAt: Option<int>
    var isActive: Option<bool>
    var passwordResetToken: Option<string>
    var passwordResetTokenExpiry: Option<int>
    var passwordResetAttempts: int
    var lastPasswordResetRequest: Option<int>

    /** The builder with its defaults: active, no reset in progress. */
    constructor (userName: string, email: string, password: string)
      ensures this.userName == userName && this.email == email && this.password == password
      ensures id.None? && createdAt.None? && updatedAt.None?
      ensures isActive == Some(true) && passwordResetAttempts == 0
      ensures passwordResetToken.None? && passwordResetTokenExpiry.None?
      ensures lastPasswordResetRequest.None?
    {
      this.id := None;
      this.userName := userName;
      this.email := email;
      this.password := password;
      this.createdAt := None;
      this.updatedAt := None;
      this.isActive := Some(true);
      this.passwordResetToken := None;
      this.passwordResetTokenExpiry := None;
      this.passwordResetAttempts := 0;
      this.lastPasswordResetRequest := None;
    }

    /** `@PrePersist onCreate`: both timestamps, each from its own clock
        reading. */
    method OnCreate(createdNow: int, updatedNow: int)
      modifies this`createdAt, this`updatedAt
      ensures createdAt == Some(createdNow) && updatedAt == Some(updatedNow)
    {
      createdAt := Some(createdNow);
      updatedAt := Some(updatedNow);
    }

    /** `@PreUpdate onUpdate`: only `updatedAt` moves. */
    method OnUpdate(now: int)
      modifies this`updatedAt
      ensures updatedAt == Some(now)
    {
      updatedAt := Some(now);
    }

    /** `isEnabled`: a missing flag counts as active. */
    function IsEnabled(): (r: bool)
      reads this
      ensures r <==> isActive != Some(false)
    {
      if isActive.Some? then isActive.value else true
    }

    /** `getUsername`: the display name, not the e-mail address. */
    function GetUsername(): (r: string)
      reads this
      ensures r == userName
    {
      userName
    }

    /** `getAuthorities`: no roles. */
    function GetAuthorities(): seq<string> {
      []
    }

    function IsAccountNonExpired(): bool { true }
    function IsAccountNonLocked(): bool { true }
    function IsCredentialsNonExpired(): bool { true }
  }

  /** What Spring Security sees of a user: no roles, nothing ever expired or
      locked, so only `isEnabled` can refuse a login; and the principal name is
      the user name. */
  lemma UserDetailsView(u: User)
    ensures u.GetAuthorities() == []
    ensures u.IsAccountNonExpired() && u.IsAccountNonLocked() && u.IsCredentialsNonExpired()
    ensures u.GetUsername() == u.userName
    ensures u.isActive.None? ==> u.IsEnabled()
  {
  }
}
