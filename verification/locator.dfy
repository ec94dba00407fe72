/** Locators and operation kinds: plain enumerations of the generator. */
module Locators {

  /** The Selenium lookup strategy; `Value` is the suffix of `find_element_by_`. */
  datatype LocatorType = Id | Name | LinkText | XPath
  {
    function Value(): string
    {
      match this
      case Id => "id"
      case Name => "name"
      case LinkText => "partial_link_text"
      case XPath => "xpath"
    }
  }

  datatype Locator = Locator(locatorType: LocatorType, value: string)

  datatype OperationType =
    | Enter | Select | Click | Open | PageTransition | AssertElement | AssertString | AssertTitle
  {
    /** The kinds whose steps are resolved to page elements. */
    predicate IsLocatable()
    {
      this == Enter || this == Select || this == Click
    }
  }
}
