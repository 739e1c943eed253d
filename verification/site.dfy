/** What both handlers share: the organisation records they iterate over and
    the site origin they prepend to relative profile paths. */
module Site {

  /** One shelter: its id, display name and listing-page URL. */
  datatype Org = Org(id: string, name: string, url: string)

  /** The origin prepended to site-relative profile paths. */
  const Origin: string := "https://www.petfinder.com"
}
