/**
 * The user page: which controls the session's permissions show (the Add User button, the Action
 * column and its Edit and Delete buttons), the serial-number column, and the add/edit dialog with
 * the payload it sends.
 */
module UserList {
  import opened Wrappers
  import opened Records
  import opened AuthContext
  import opened PermissionUtil
  import Pagination

  const AddCode := "sys:user:save"
  const EditCode := "sys:user:update"
  const DeleteCode := "sys:user:delete"

  /** A table column, by its title and key. */
  datatype Column = Column(title: string, key: string)

  /** The columns every user sees, in display order. */
  const BaseColumns: seq<Column> := [
    Column("Serial No.", "index"),
    Column("Username", "username"),
    Column("Real Name", "realName"),
    Column("Role", "roleName"),
    Column("Email", "email"),
    Column("Status", "status")
  ]

  const ActionColumn := Column("Action", "action")

  /** The buttons of a row's Action cell. */
  datatype RowAction = EditRow | DeleteRow

  /** The Add User button is shown. */
  function ShowAddButton(user: Option<SessionUser>): (r: bool)
    ensures r <==> user.Some? && AddCode in user.value.permissions
  {
    HasPermission(user, AddCode)
  }

  /** The Action column is shown: the user may edit or delete. */
  predicate ShowActionColumn(user: Option<SessionUser>)
  {
    HasPermission(user, EditCode) || HasPermission(user, DeleteCode)
  }

  /** `columns`, with the Action column pushed at the end when it is shown. */
  method Columns(user: Option<SessionUser>) returns (cols: seq<Column>)
    ensures |cols| >= |BaseColumns| && cols[..|BaseColumns|] == BaseColumns
    ensures ActionColumn in cols <==> user.Some? && (EditCode in user.value.permissions || DeleteCode in user.value.permissions)
    ensures |cols| == |BaseColumns| + (if ShowActionColumn(user) then 1 else 0)
  {
    cols := BaseColumns;
    if HasPermission(user, EditCode) || HasPermission(user, DeleteCode) {
      cols := cols + [ActionColumn];
    }
  }

  /** The buttons of the Action cell, Edit before Delete. */
  function RowActions(user: Option<SessionUser>): (r: seq<RowAction>)
    ensures EditRow in r <==> user.Some? && EditCode in user.value.permissions
    ensures DeleteRow in r <==> user.Some? && DeleteCode in user.value.permissions
    ensures |r| <= 2 && (|r| == 2 ==> r == [EditRow, DeleteRow])
  {
    (if HasPermission(user, EditCode) then [EditRow] else [])
    + (if HasPermission(user, DeleteCode) then [DeleteRow] else [])
  }

  /** The Action column is shown exactly when it would hold at least one button. */
  lemma ActionColumnNeverEmpty(user: Option<SessionUser>)
    ensures ShowActionColumn(user) <==> RowActions(user) != []
  {
    if RowActions(user) != [] {
      assert RowActions(user)[0] in RowActions(user);
    }
  }

  /** Without a session user no control that needs a permission appears. */
  lemma NoUserNoControls()
    ensures !ShowAddButton(None) && !ShowActionColumn(None) && RowActions(None) == []
  {
  }

  /** The values of the dialog's form. */
  datatype UserForm = UserForm(
    username: string,
    password: string,
    realName: string,
    roleId: Option<int>,
    email: string,
    status: int)

  /** The reset form: every field empty, the status at its initial value 1 (Active). */
  const EmptyUserForm := UserForm("", "", "", None, "", 1)

  /** What `saveUser` receives: the form values, the password only when its field exists. */
  datatype UserPayload = UserPayload(
    username: string,
    password: Option<string>,
    realName: string,
    roleId: int,
    email: string,
    status: int,
    userId: Option<int>)

  /** Which form fields exist and which are disabled. */
  datatype FormLayout = FormLayout(usernameDisabled: bool, hasPassword: bool)

  /**
   * `form.setFieldsValue(record)` over the form `prev`: the fields the record carries are set, a
   * field it lacks (`None` here) keeps the value it had.
   */
  function FormOf(record: User, prev: UserForm): (f: UserForm)
    ensures f.roleId == Some(record.roleId) && f.realName == record.realName
    ensures f.email == record.email && f.status == record.status
    ensures f.username == (if record.username.Some? then record.username.value else prev.username)
    ensures f.password == (if record.password.Some? then record.password.value else prev.password)
  {
    UserForm(
      if record.username.Some? then record.username.value else prev.username,
      if record.password.Some? then record.password.value else prev.password,
      record.realName, Some(record.roleId), record.email, record.status)
  }

  /**
   * Setting the same record twice is setting it once, and a record that carries both a user name
   * and a password replaces the whole form, whatever it held before.
   */
  lemma FormOfLaws(record: User, prev: UserForm, other: UserForm)
    ensures FormOf(record, FormOf(record, prev)) == FormOf(record, prev)
    ensures record.username.Some? && record.password.Some? ==> FormOf(record, prev) == FormOf(record, other)
    ensures record.username.None? && NonEmpty(prev.username) ==> NonEmpty(FormOf(record, prev).username)
  {
  }

  /**
   * The state of the user page: the edited user (`None` for a new one), whether the dialog is
   * open, the form, and the table's pagination.
   */
  class UserEditor {
    var editingId: Option<int>
    var visible: bool
    var form: UserForm
    var pageNo: int
    var pageSize: int
    var total: int

    /** The form as laid out for the current `editingId`. */
    function Layout(): FormLayout
      reads this
    {
      FormLayout(Truthy(editingId), !Truthy(editingId))
    }

    /** The required fields of the present layout are filled in. */
    predicate FormValid()
      reads this
    {
      NonEmpty(form.username)
      && (Layout().hasPassword ==> NonEmpty(form.password))
      && NonEmpty(form.realName)
      && form.roleId.Some?
    }

    /** `{ ...values, userId: editingId }`. */
    function Payload(): (p: UserPayload)
      requires FormValid()
      reads this
      ensures p.userId == editingId
      ensures p.password.Some? <==> !Truthy(editingId)
      ensures p.password.Some? ==> p.password.value == form.password
      ensures p.username == form.username && p.realName == form.realName && Some(p.roleId) == form.roleId
    {
      UserPayload(
        form.username,
        if Layout().hasPassword then Some(form.password) else None,
        form.realName, form.roleId.value, form.email, form.status, editingId)
    }

    /** The serial number shown in row `index` of the current page. */
    function Serial(index: nat): (r: int)
      reads this
      ensures pageNo >= 1 && pageSize >= 1 && index < pageSize ==> (pageNo - 1) * pageSize < r <= pageNo * pageSize
    {
      Pagination.SerialNo(pageNo, pageSize, index)
    }

    /** The page before any interaction: page 1 of 10 rows, nothing loaded, no dialog. */
    constructor()
      ensures pageNo == 1 && pageSize == 10 && total == 0
      ensures editingId == None && !visible && form == EmptyUserForm
    {
      editingId := None;
      visible := false;
      form := EmptyUserForm;
      pageNo := 1;
      pageSize := 10;
      total := 0;
    }

    /** `handleTableChange(pager)`: another page or page size; the total stays. */
    method HandleTableChange(current: int, size: int)
      modifies this
      ensures pageNo == current && pageSize == size && total == old(total)
      ensures editingId == old(editingId) && visible == old(visible) && form == old(form)
    {
      pageNo := current;
      pageSize := size;
    }

    /** `handleAdd`: a new user, an empty form with a password field and an editable user name. */
    method HandleAdd()
      modifies this
      ensures editingId == None && form == EmptyUserForm && visible
      ensures Layout() == FormLayout(false, true)
      ensures pageNo == old(pageNo) && pageSize == old(pageSize) && total == old(total)
    {
      editingId := None;
      form := EmptyUserForm;
      visible := true;
    }

    /**
     * `handleEdit(record)`: the record's values in the form; for a record with a non-zero id the
     * user name is locked and there is no password field.
     */
    method HandleEdit(record: User)
      modifies this
      ensures editingId == Some(record.userId) && form == FormOf(record, old(form)) && visible
      ensures record.userId != 0 ==> Layout() == FormLayout(true, false)
      ensures pageNo == old(pageNo) && pageSize == old(pageSize) && total == old(total)
    {
      editingId := Some(record.userId);
      form := FormOf(record, form);
      visible := true;
    }

    /**
     * `handleOk`, given whether the save request succeeded. Both outcomes are reported with
     * `showMessage(text, 3)`, whose second argument is the message type: 3 is no known type, so
     * both toasts are of the info kind.
     */
    method HandleOk(saved: bool) returns (req: Option<UserPayload>, msg: Message)
      modifies this
      ensures old(FormValid()) ==> req.Some? && req.value.userId == old(editingId)
                                   && (req.value.password.Some? <==> !Truthy(old(editingId)))
      ensures old(FormValid()) ==> FormValid() && req == Some(Payload())
      ensures !old(FormValid()) ==> req == None
      ensures msg == Message(Info, if old(FormValid()) && saved then "Saved successfully" else "Save failed")
      ensures visible == (old(visible) && !(old(FormValid()) && saved))
      ensures editingId == old(editingId) && form == old(form)
      ensures pageNo == old(pageNo) && pageSize == old(pageSize) && total == old(total)
    {
      if FormValid() {
        req := Some(Payload());
        if saved {
          msg := Message(Info, "Saved successfully");
          visible := false;
        } else {
          msg := Message(Info, "Save failed");
        }
      } else {
        req := None;
        msg := Message(Info, "Save failed");
      }
    }
  }
}
